/**
  One row of the list-items query and its mapping to the response object
  (`mapRawResult` in server/src/repository/list.ts). `Resolve` gathers, for
  one list item, the joined records and every aggregate subquery; `MapRawResult`
  turns that row into the item the API returns.
 */
module ListView {
  import opened Entities
  import opened SeenEntity
  import opened ListAggregates

  /** The stored facts the query reads. */
  datatype Facts = Facts(catalog: Catalog, listItems: seq<ListItem>, seen: seq<Seen>)

  /** A result row of the query: the list item, its left joins and its aggregates. */
  datatype Row = Row(
    listItem: ListItem,
    mediaItem: Option<MediaItem>,
    season: Option<Season>,
    episode: Option<Episode>,
    mediaItemWatchlist: Option<Id>,
    seasonWatchlist: Option<Id>,
    episodeWatchlist: Option<Id>,
    episodeLastSeenAt: Option<int>,
    seasonLastSeenAt: Option<int>,
    mediaItemLastSeen: LastSeenGroup,
    mediaItemTotalRuntime: Option<int>,
    seasonTotalRuntime: Option<int>,
    mediaItemAiredEpisodes: Option<nat>,
    seasonAiredEpisodes: Option<nat>,
    mediaItemRating: Option<UserRating>,
    seasonRating: Option<UserRating>,
    episodeRating: Option<UserRating>,
    mediaItemSeenEpisodes: Option<nat>,
    seasonSeenEpisodes: Option<nat>,
    mediaItemFirstUnwatched: Option<Episode>,
    seasonFirstUnwatched: Option<Episode>,
    mediaItemLastAired: Option<Episode>,
    seasonLastAired: Option<Episode>,
    mediaItemUpcoming: Option<Episode>)

  /** A join on `listItem.seasonId`: NULL matches nothing. */
  function OnSeason<T>(seasonId: Option<Id>, f: Id -> Option<T>): (r: Option<T>)
    ensures seasonId.None? ==> r.None?
    ensures seasonId.Some? ==> r == f(seasonId.value)
  {
    if seasonId.Some? then f(seasonId.value) else None
  }

  /**
    The query row of one list item. The season seen count and the season
    last aired episode are joined on the show id, as in the query.
   */
  function Resolve(f: Facts, userId: Id, watchlistId: Id, now: int, li: ListItem): (r: Row)
    ensures r.listItem == li
    ensures r.seasonSeenEpisodes == r.mediaItemSeenEpisodes
    ensures r.seasonLastAired == r.mediaItemLastAired
  {
    var c := f.catalog;
    var showSeenCount := SeenEpisodesCount(c.episodes, f.seen, userId, li.mediaItemId);
    var showLastAired := LastAired(c.episodes, li.mediaItemId, now);
    Row(
      li,
      FindMediaItem(c.mediaItems, li.mediaItemId),
      OnSeason(li.seasonId, (id: Id) => FindSeason(c.seasons, id)),
      OnSeason(li.episodeId, (id: Id) => FindEpisode(c.episodes, id)),
      WatchlistEntry(f.listItems, watchlistId, ShowLevel(li.mediaItemId)),
      OnSeason(li.seasonId, (id: Id) => WatchlistEntry(f.listItems, watchlistId, SeasonLevel(id))),
      OnSeason(li.episodeId, (id: Id) => WatchlistEntry(f.listItems, watchlistId, EpisodeLevel(id))),
      OnSeason(li.episodeId, (id: Id) => EpisodeLastSeenAt(f.seen, userId, id)),
      OnSeason(li.seasonId, (id: Id) => SeasonLastSeenAt(c.episodes, f.seen, userId, id)),
      MediaItemLastSeen(f.seen, userId, li.mediaItemId),
      TotalRuntime(c.mediaItems, c.episodes, ShowScope(li.mediaItemId), now),
      OnSeason(li.seasonId, (id: Id) => TotalRuntime(c.mediaItems, c.episodes, SeasonScope(id), now)),
      AiredEpisodesCount(c.episodes, ShowScope(li.mediaItemId), now),
      OnSeason(li.seasonId, (id: Id) => AiredEpisodesCount(c.episodes, SeasonScope(id), now)),
      RatingEntry(c.ratings, userId, ShowLevel(li.mediaItemId)),
      OnSeason(li.seasonId, (id: Id) => RatingEntry(c.ratings, userId, SeasonLevel(id))),
      OnSeason(li.episodeId, (id: Id) => RatingEntry(c.ratings, userId, EpisodeLevel(id))),
      showSeenCount,
      showSeenCount,
      FirstUnwatched(c.episodes, f.seen, userId, ShowScope(li.mediaItemId), now),
      OnSeason(li.seasonId, (id: Id) => FirstUnwatched(c.episodes, f.seen, userId, SeasonScope(id), now)),
      showLastAired,
      showLastAired,
      UpcomingEpisode(c.episodes, li.mediaItemId, now))
  }

  /** The `type` field: season and episode before the media type. */
  datatype ItemType = SeasonType | EpisodeType | OfMediaType(mediaType: Option<MediaType>)

  datatype EpisodeSummary = EpisodeSummary(
    id: Id,
    tvShowId: Id,
    seasonId: Option<Id>,
    seasonNumber: int,
    episodeNumber: int,
    title: string,
    releaseDate: Date,
    runtime: Option<int>,
    isSpecialEpisode: bool)

  datatype RatingView = RatingView(
    mediaItemId: Id,
    seasonId: Option<Id>,
    episodeId: Option<Id>,
    userId: Id,
    rating: int,
    date: Option<int>)

  datatype MediaItemView = MediaItemView(
    id: Id,
    mediaType: Option<MediaType>,
    title: Option<string>,
    releaseDate: Date,
    runtime: Option<int>,
    airedEpisodesCount: Option<nat>,
    seenEpisodesCount: Option<nat>,
    unseenEpisodesCount: Option<int>,
    seen: bool,
    totalRuntime: Option<int>,
    lastSeenAt: Option<int>,
    onWatchlist: bool,
    userRating: Option<RatingView>,
    firstUnwatchedEpisode: Option<EpisodeSummary>,
    lastAiredEpisode: Option<EpisodeSummary>,
    upcomingEpisode: Option<EpisodeSummary>)

  datatype SeasonView = SeasonView(
    id: Id,
    tvShowId: Id,
    seasonNumber: Option<int>,
    isSpecialSeason: bool,
    releaseDate: Date,
    airedEpisodesCount: Option<nat>,
    seenEpisodesCount: Option<nat>,
    unseenEpisodesCount: Option<int>,
    seen: bool,
    totalRuntime: Option<int>,
    userRating: Option<RatingView>,
    onWatchlist: bool,
    lastSeenAt: Option<int>,
    firstUnwatchedEpisode: Option<EpisodeSummary>,
    lastAiredEpisode: Option<EpisodeSummary>)

  datatype EpisodeView = EpisodeView(
    id: Id,
    tvShowId: Id,
    episodeNumber: Option<int>,
    seasonNumber: Option<int>,
    seasonAndEpisodeNumber: Option<int>,
    title: Option<string>,
    releaseDate: Date,
    isSpecialEpisode: bool,
    runtime: Option<int>,
    userRating: Option<RatingView>,
    onWatchlist: bool,
    lastSeenAt: Option<int>,
    seen: bool)

  datatype ItemView = ItemView(
    id: Id,
    listedAt: int,
    itemType: ItemType,
    mediaItem: MediaItemView,
    season: Option<SeasonView>,
    episode: Option<EpisodeView>)

  /** An episode object of the response; its runtime is `runtime || null`. */
  function Summary(e: Episode, tvShowId: Id): (r: EpisodeSummary)
    ensures r.id == e.id && r.tvShowId == tvShowId && r.runtime == Norm(e.runtime)
  {
    EpisodeSummary(e.id, tvShowId, e.seasonId, e.seasonNumber, e.episodeNumber, e.title,
                   e.releaseDate, Norm(e.runtime), e.isSpecialEpisode)
  }

  /** A `userRating` object, present only when the joined rating is truthy (a review alone gives none). */
  function RatingOf(r: Option<UserRating>, mediaItemId: Id, seasonId: Option<Id>, episodeId: Option<Id>): (v: Option<RatingView>)
    ensures v.Some? <==> r.Some? && Truthy(r.value.rating)
    ensures v.Some? ==> v.value.rating == r.value.rating.value && v.value.userId == r.value.userId
  {
    if r.Some? && Truthy(r.value.rating) then
      Some(RatingView(mediaItemId, seasonId, episodeId, r.value.userId, r.value.rating.value, r.value.date))
    else None
  }

  predicate IsTv(row: Row) {
    row.mediaItem.Some? && row.mediaItem.value.mediaType == Tv
  }

  function MediaItemOf(row: Row): (v: MediaItemView)
    ensures v.id == row.listItem.mediaItemId
    ensures v.seen <==> if IsTv(row) then Num(row.mediaItemAiredEpisodes) - Num(row.mediaItemSeenEpisodes) == 0
                        else Truthy(row.mediaItemLastSeen.mediaItemId)
    ensures v.unseenEpisodesCount.Some? <==> IsTv(row) && Truthy(row.mediaItemAiredEpisodes)
    ensures v.unseenEpisodesCount.Some? ==>
      v.unseenEpisodesCount.value == Num(row.mediaItemAiredEpisodes) - Num(row.mediaItemSeenEpisodes)
    ensures v.totalRuntime == Norm(if IsTv(row) then row.mediaItemTotalRuntime
                                   else if row.mediaItem.Some? then row.mediaItem.value.runtime else None)
    ensures v.onWatchlist <==> Truthy(row.mediaItemWatchlist)
  {
    var li := row.listItem;
    var tv := IsTv(row);
    var m := row.mediaItem;
    MediaItemView(
      li.mediaItemId,
      if m.Some? then Some(m.value.mediaType) else None,
      if m.Some? then Some(m.value.title) else None,
      if m.Some? then m.value.releaseDate else Null,
      if m.Some? then Norm(m.value.runtime) else None,
      row.mediaItemAiredEpisodes,
      row.mediaItemSeenEpisodes,
      if tv && Truthy(row.mediaItemAiredEpisodes)
      then Some(Num(row.mediaItemAiredEpisodes) - Num(row.mediaItemSeenEpisodes))
      else None,
      if tv then Num(row.mediaItemAiredEpisodes) - Num(row.mediaItemSeenEpisodes) == 0
      else Truthy(row.mediaItemLastSeen.mediaItemId),
      Norm(if tv then row.mediaItemTotalRuntime else if m.Some? then m.value.runtime else None),
      row.mediaItemLastSeen.lastSeenAt,
      Truthy(row.mediaItemWatchlist),
      RatingOf(row.mediaItemRating, li.mediaItemId, None, None),
      if row.mediaItemFirstUnwatched.Some? then Some(Summary(row.mediaItemFirstUnwatched.value, li.mediaItemId)) else None,
      if row.mediaItemLastAired.Some? then Some(Summary(row.mediaItemLastAired.value, li.mediaItemId)) else None,
      if row.mediaItemUpcoming.Some? then Some(Summary(row.mediaItemUpcoming.value, li.mediaItemId)) else None)
  }

  /**
    The season object. It has no media-type test: its seen flag and unseen
    count subtract the show's seen count from the season's aired count.
   */
  function SeasonOf(row: Row, seasonId: Id): (v: SeasonView)
    ensures v.id == seasonId && v.tvShowId == row.listItem.mediaItemId
    ensures v.seen <==> Num(row.seasonAiredEpisodes) == Num(row.seasonSeenEpisodes)
    ensures v.unseenEpisodesCount.Some? <==> Truthy(row.seasonAiredEpisodes)
    ensures v.firstUnwatchedEpisode.Some? <==> row.seasonFirstUnwatched.Some? && row.seasonFirstUnwatched.value.episodeNumber != 0
    ensures v.onWatchlist <==> Truthy(row.seasonWatchlist)
  {
    var li := row.listItem;
    var s := row.season;
    var fu := row.seasonFirstUnwatched;
    SeasonView(
      seasonId,
      li.mediaItemId,
      if s.Some? then Some(s.value.seasonNumber) else None,
      s.Some? && s.value.isSpecialSeason,
      if s.Some? then s.value.releaseDate else Null,
      row.seasonAiredEpisodes,
      row.seasonSeenEpisodes,
      if Truthy(row.seasonAiredEpisodes)
      then Some(Num(row.seasonAiredEpisodes) - Num(row.seasonSeenEpisodes))
      else None,
      Num(row.seasonAiredEpisodes) - Num(row.seasonSeenEpisodes) == 0,
      Norm(row.seasonTotalRuntime),
      RatingOf(row.seasonRating, li.mediaItemId, Some(seasonId), None),
      Truthy(row.seasonWatchlist),
      row.seasonLastSeenAt,
      if fu.Some? && fu.value.episodeNumber != 0 then Some(Summary(fu.value, fu.value.tvShowId)) else None,
      if row.seasonLastAired.Some? then Some(Summary(row.seasonLastAired.value, li.mediaItemId)) else None)
  }

  /** The episode object; it counts as seen only when its last seen date is truthy. */
  function EpisodeOf(row: Row, episodeId: Id): (v: EpisodeView)
    ensures v.id == episodeId && v.tvShowId == row.listItem.mediaItemId
    ensures v.seen <==> Truthy(row.episodeLastSeenAt)
    ensures v.onWatchlist <==> Truthy(row.episodeWatchlist)
  {
    var li := row.listItem;
    var e := row.episode;
    EpisodeView(
      episodeId,
      li.mediaItemId,
      if e.Some? then Some(e.value.episodeNumber) else None,
      if e.Some? then Some(e.value.seasonNumber) else None,
      if e.Some? then Some(e.value.seasonAndEpisodeNumber) else None,
      if e.Some? then Some(e.value.title) else None,
      if e.Some? then e.value.releaseDate else Null,
      e.Some? && e.value.isSpecialEpisode,
      if e.Some? then Norm(e.value.runtime) else None,
      RatingOf(row.episodeRating, li.mediaItemId, None, Some(episodeId)),
      Truthy(row.episodeWatchlist),
      row.episodeLastSeenAt,
      Truthy(row.episodeLastSeenAt))
  }

  /**
    `mapRawResult`: the type tests the season id before the episode id; the
    season object is present iff the season id is truthy, the episode object
    iff the episode id is truthy (so a row with both set has both).
   */
  function MapRawResult(row: Row): (v: ItemView)
    ensures v.id == row.listItem.id && v.listedAt == row.listItem.addedAt
    ensures v.itemType == SeasonType <==> Truthy(row.listItem.seasonId)
    ensures v.itemType == EpisodeType <==> !Truthy(row.listItem.seasonId) && Truthy(row.listItem.episodeId)
    ensures v.itemType.OfMediaType? ==> v.itemType.mediaType == v.mediaItem.mediaType
    ensures v.season.Some? <==> Truthy(row.listItem.seasonId)
    ensures v.episode.Some? <==> Truthy(row.listItem.episodeId)
    ensures v.season.Some? ==> v.season.value.id == row.listItem.seasonId.value
    ensures v.episode.Some? ==> v.episode.value.id == row.listItem.episodeId.value
  {
    var li := row.listItem;
    var mediaItem := MediaItemOf(row);
    ItemView(
      li.id,
      li.addedAt,
      if Truthy(li.seasonId) then SeasonType
      else if Truthy(li.episodeId) then EpisodeType
      else OfMediaType(mediaItem.mediaType),
      mediaItem,
      if Truthy(li.seasonId) then Some(SeasonOf(row, li.seasonId.value)) else None,
      if Truthy(li.episodeId) then Some(EpisodeOf(row, li.episodeId.value)) else None)
  }

  /** The response item of one list item. */
  function View(f: Facts, userId: Id, watchlistId: Id, now: int, li: ListItem): ItemView {
    MapRawResult(Resolve(f, userId, watchlistId, now, li))
  }

  predicate IsTvItem(f: Facts, li: ListItem) {
    var m := FindMediaItem(f.catalog.mediaItems, li.mediaItemId);
    m.Some? && m.value.mediaType == Tv
  }

  /** A count as JavaScript sees it: the size of the group, or 0 for a missing group. */
  lemma AiredNum(episodes: seq<Episode>, scope: Scope, now: int)
    ensures Num(AiredEpisodesCount(episodes, scope, now)) == |AiredEpisodes(episodes, scope, now)|
  {
  }

  lemma SeenNum(episodes: seq<Episode>, seen: seq<Seen>, userId: Id, mediaItemId: Id)
    ensures Num(SeenEpisodesCount(episodes, seen, userId, mediaItemId)) == |SeenEpisodeIds(episodes, seen, userId, mediaItemId)|
  {
  }

  /**
    A tv item is seen iff it has as many aired episodes as distinct seen
    non-special episodes (so a show with nothing aired and nothing seen is seen).
   */
  lemma TvSeenIff(f: Facts, userId: Id, watchlistId: Id, now: int, li: ListItem)
    requires IsTvItem(f, li)
    ensures View(f, userId, watchlistId, now, li).mediaItem.seen <==>
      |AiredEpisodes(f.catalog.episodes, ShowScope(li.mediaItemId), now)|
      == |SeenEpisodeIds(f.catalog.episodes, f.seen, userId, li.mediaItemId)|
  {
    AiredNum(f.catalog.episodes, ShowScope(li.mediaItemId), now);
    SeenNum(f.catalog.episodes, f.seen, userId, li.mediaItemId);
  }

  /** A non-tv item is seen iff the user has a seen row for it (and its id is not 0). */
  lemma NonTvSeenIff(f: Facts, userId: Id, watchlistId: Id, now: int, li: ListItem)
    requires !IsTvItem(f, li)
    ensures View(f, userId, watchlistId, now, li).mediaItem.seen <==>
      li.mediaItemId != 0 && exists s :: s in f.seen && s.userId == userId && s.mediaItemId == li.mediaItemId
  {
  }

  /**
    The unseen count is present iff the item is tv with at least one aired
    episode, and is then the plain difference of the two counts.
   */
  lemma UnseenCount(f: Facts, userId: Id, watchlistId: Id, now: int, li: ListItem)
    ensures var v := View(f, userId, watchlistId, now, li).mediaItem;
      var aired := |AiredEpisodes(f.catalog.episodes, ShowScope(li.mediaItemId), now)|;
      var seenIds := |SeenEpisodeIds(f.catalog.episodes, f.seen, userId, li.mediaItemId)|;
      (v.unseenEpisodesCount.Some? <==> IsTvItem(f, li) && aired > 0)
      && (v.unseenEpisodesCount.Some? ==> v.unseenEpisodesCount.value == aired - seenIds)
  {
    AiredNum(f.catalog.episodes, ShowScope(li.mediaItemId), now);
    SeenNum(f.catalog.episodes, f.seen, userId, li.mediaItemId);
  }

  /*
    A two-episode show whose second episode has not aired yet; user 7 has
    seen both episodes. The list item (id 5) is on list 3.
   */
  const ExampleNow: int := DateOnly(150)
  const ExampleAired: Episode := Episode(10, 1, None, 1, 1, 1001, "Pilot", At(DateOnly(100)), None, false)
  const ExampleFuture: Episode := Episode(11, 1, None, 1, 2, 1002, "Next", At(DateOnly(200)), None, false)
  const ExampleSeen: seq<Seen> :=
    [Seen(Some(1), Some(ExampleNow), 1, Some(10), 7, None), Seen(Some(2), Some(ExampleNow), 1, Some(11), 7, None)]
  const ExampleFacts: Facts :=
    Facts(Catalog([MediaItem(1, Tv, "Show", At(DateOnly(100)), None, None)], [], [ExampleAired, ExampleFuture], []),
          [], ExampleSeen)
  const ExampleItem: ListItem := ListItem(5, 3, 1, None, None, 0)

  lemma ExampleCounts()
    ensures |AiredEpisodes(ExampleFacts.catalog.episodes, ShowScope(1), ExampleNow)| == 1
    ensures |SeenEpisodeIds(ExampleFacts.catalog.episodes, ExampleSeen, 7, 1)| == 2
  {
    var eps := ExampleFacts.catalog.episodes;
    assert eps == [ExampleAired, ExampleFuture];
    var airedSeq := AiredEpisodes(eps, ShowScope(1), ExampleNow);
    assert airedSeq == Filter(eps, e => InScope(e, ShowScope(1)) && Aired(e, ExampleNow));
    assert eps[1..] == [ExampleFuture] && eps[1..][1..] == [];
    assert airedSeq == [ExampleAired];
    var ids := SeenEpisodeIds(eps, ExampleSeen, 7, 1);
    assert ExampleSeen[0] in ExampleSeen && ExampleSeen[1] in ExampleSeen;
    assert ExampleAired in eps && ExampleFuture in eps;
    assert 10 in ids && 11 in ids;
    assert ids == {10, 11};
  }

  /**
    The count is not clamped: a user who has seen one aired and one not yet
    aired episode of a two-episode show gets -1 unseen episodes, and the
    show is reported as not seen.
   */
  lemma UnseenCountCanBeNegative()
    ensures View(ExampleFacts, 7, 3, ExampleNow, ExampleItem).mediaItem.unseenEpisodesCount == Some(-1)
    ensures !View(ExampleFacts, 7, 3, ExampleNow, ExampleItem).mediaItem.seen
  {
    assert IsTvItem(ExampleFacts, ExampleItem);
    ExampleCounts();
    UnseenCount(ExampleFacts, 7, 3, ExampleNow, ExampleItem);
    TvSeenIff(ExampleFacts, 7, 3, ExampleNow, ExampleItem);
  }

  /** The season object reports the show's seen count and the show's last aired episode. */
  lemma SeasonUsesShowValues(f: Facts, userId: Id, watchlistId: Id, now: int, li: ListItem)
    requires Truthy(li.seasonId)
    ensures var v := View(f, userId, watchlistId, now, li);
      v.season.Some?
      && v.season.value.seenEpisodesCount == v.mediaItem.seenEpisodesCount
      && v.season.value.lastAiredEpisode == v.mediaItem.lastAiredEpisode
  {
  }

  /** The first unwatched episode shown for an item is the minimal-key candidate of its show. */
  lemma FirstUnwatchedShown(f: Facts, userId: Id, watchlistId: Id, now: int, li: ListItem)
    ensures var v := View(f, userId, watchlistId, now, li).mediaItem;
      var eps := f.catalog.episodes;
      (v.firstUnwatchedEpisode.Some? <==>
         exists c :: c in eps && c.tvShowId == li.mediaItemId && UnwatchedAndOut(f.seen, userId, c, now))
      && (v.firstUnwatchedEpisode.Some? ==>
         v.firstUnwatchedEpisode.value.tvShowId == li.mediaItemId
         && exists e :: e in eps && e.tvShowId == li.mediaItemId && e.id == v.firstUnwatchedEpisode.value.id
              && forall c :: c in eps && c.tvShowId == li.mediaItemId && UnwatchedAndOut(f.seen, userId, c, now)
                   ==> e.seasonAndEpisodeNumber <= c.seasonAndEpisodeNumber)
  {
    var r := FirstUnwatched(f.catalog.episodes, f.seen, userId, ShowScope(li.mediaItemId), now);
    if r.Some? {
      assert InScope(r.value, ShowScope(li.mediaItemId));
    }
  }

  /**
    An episode item whose seen rows all lack a date is reported as not seen,
    although the user has seen rows for it.
   */
  lemma EpisodeSeenNeedsDate(f: Facts, userId: Id, watchlistId: Id, now: int, li: ListItem)
    requires Truthy(li.episodeId)
    requires forall s :: s in f.seen && s.userId == userId && s.episodeId == li.episodeId ==> s.date.None?
    ensures var v := View(f, userId, watchlistId, now, li);
      v.episode.Some? && !v.episode.value.seen
  {
  }

  /**
    With positive row ids, the show is on the watchlist iff the watchlist
    has a row for it with neither a season nor an episode.
   */
  lemma ShowOnWatchlistIff(f: Facts, userId: Id, watchlistId: Id, now: int, li: ListItem)
    requires forall row :: row in f.listItems ==> row.id > 0
    ensures View(f, userId, watchlistId, now, li).mediaItem.onWatchlist <==>
      exists row :: row in f.listItems && row.listId == watchlistId && row.mediaItemId == li.mediaItemId
                    && row.seasonId.None? && row.episodeId.None?
  {
    var w := WatchlistEntry(f.listItems, watchlistId, ShowLevel(li.mediaItemId));
    if exists row :: row in f.listItems && row.listId == watchlistId && row.mediaItemId == li.mediaItemId
                     && row.seasonId.None? && row.episodeId.None? {
      var row :| row in f.listItems && row.listId == watchlistId && row.mediaItemId == li.mediaItemId
                 && row.seasonId.None? && row.episodeId.None?;
      assert WatchlistRowAt(row, watchlistId, ShowLevel(li.mediaItemId));
    }
  }

  /** With positive row ids, a season item's season is on the watchlist iff a season-level watchlist row names it. */
  lemma SeasonOnWatchlistIff(f: Facts, userId: Id, watchlistId: Id, now: int, li: ListItem)
    requires Truthy(li.seasonId)
    requires forall row :: row in f.listItems ==> row.id > 0
    ensures var v := View(f, userId, watchlistId, now, li);
      v.season.Some? && (v.season.value.onWatchlist <==>
        exists row :: row in f.listItems && row.listId == watchlistId && row.seasonId == li.seasonId && row.episodeId.None?)
  {
    var w := WatchlistEntry(f.listItems, watchlistId, SeasonLevel(li.seasonId.value));
    if exists row :: row in f.listItems && row.listId == watchlistId && row.seasonId == li.seasonId && row.episodeId.None? {
      var row :| row in f.listItems && row.listId == watchlistId && row.seasonId == li.seasonId && row.episodeId.None?;
      assert WatchlistRowAt(row, watchlistId, SeasonLevel(li.seasonId.value));
    }
  }

  /** With positive row ids, an episode item is on the watchlist iff some watchlist row names that episode. */
  lemma EpisodeOnWatchlistIff(f: Facts, userId: Id, watchlistId: Id, now: int, li: ListItem)
    requires Truthy(li.episodeId)
    requires forall row :: row in f.listItems ==> row.id > 0
    ensures var v := View(f, userId, watchlistId, now, li);
      v.episode.Some? && (v.episode.value.onWatchlist <==>
        exists row :: row in f.listItems && row.listId == watchlistId && row.episodeId == li.episodeId)
  {
    var w := WatchlistEntry(f.listItems, watchlistId, EpisodeLevel(li.episodeId.value));
    if exists row :: row in f.listItems && row.listId == watchlistId && row.episodeId == li.episodeId {
      var row :| row in f.listItems && row.listId == watchlistId && row.episodeId == li.episodeId;
      assert WatchlistRowAt(row, watchlistId, EpisodeLevel(li.episodeId.value));
    }
  }

  /** The show's rating comes from a rating row of the user with neither a season nor an episode. */
  lemma ShowRatingGranularity(f: Facts, userId: Id, watchlistId: Id, now: int, li: ListItem)
    ensures var v := View(f, userId, watchlistId, now, li).mediaItem;
      v.userRating.Some? ==>
        exists x :: x in f.catalog.ratings && x.userId == userId && x.mediaItemId == li.mediaItemId
          && x.seasonId.None? && x.episodeId.None? && x.rating == Some(v.userRating.value.rating)
          && v.userRating.value.rating != 0
  {
  }

  /**
    The total runtime of a tv item is the sum over its aired episodes of the
    episode runtime or else the show runtime, that of another item its own
    runtime; 0 becomes absent.
   */
  lemma TotalRuntimeShown(f: Facts, userId: Id, watchlistId: Id, now: int, li: ListItem)
    ensures var v := View(f, userId, watchlistId, now, li).mediaItem;
      var m := FindMediaItem(f.catalog.mediaItems, li.mediaItemId);
      v.totalRuntime == Norm(
        if IsTvItem(f, li) then SqlSum(Runtimes(f.catalog.mediaItems, AiredEpisodes(f.catalog.episodes, ShowScope(li.mediaItemId), now)))
        else if m.Some? then m.value.runtime else None)
  {
  }
}
