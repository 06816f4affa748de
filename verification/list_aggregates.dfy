/**
  The per-item aggregates of the list-items query (server/src/repository/list.ts,
  `items`): each left-joined subquery is a function over the stored facts
  and the current timestamp `now`. An absent group of a GROUP BY subquery is
  None, as the left join yields NULL for it.
 */
module ListAggregates {
  import opened Entities
  import opened SeenEntity

  /** The grouping column of an episode subquery: the show (`tvShowId`) or the season (`seasonId`). */
  datatype Scope = ShowScope(showId: Id) | SeasonScope(seasonId: Id)

  predicate InScope(e: Episode, scope: Scope) {
    match scope
    case ShowScope(showId) => e.tvShowId == showId
    case SeasonScope(seasonId) => e.seasonId == Some(seasonId)
  }

  /** The episode filter of the aired count, total runtime and last aired subqueries. */
  predicate Aired(e: Episode, now: int) {
    !e.isSpecialEpisode && Before(e.releaseDate, now)
  }

  /** The episode filter of the upcoming subquery. */
  predicate Upcoming(e: Episode, now: int) {
    !e.isSpecialEpisode && AtOrAfter(e.releaseDate, now)
  }

  /** Some seen row of the user names the episode. */
  predicate SeenByUser(seen: seq<Seen>, userId: Id, e: Episode) {
    exists s :: s in seen && s.userId == userId && s.episodeId == Some(e.id)
  }

  /** The episode filter of the first unwatched subquery. */
  predicate UnwatchedAndOut(seen: seq<Seen>, userId: Id, e: Episode, now: int) {
    !e.isSpecialEpisode && e.releaseDate.At? && e.releaseDate.instant <= now
    && !SeenByUser(seen, userId, e)
  }

  function AiredEpisodes(episodes: seq<Episode>, scope: Scope, now: int): (r: seq<Episode>)
    ensures forall e :: e in r <==> e in episodes && InScope(e, scope) && Aired(e, now)
  {
    Filter(episodes, e => InScope(e, scope) && Aired(e, now))
  }

  /** `count(*)` of the aired episodes of a show or season. */
  function AiredEpisodesCount(episodes: seq<Episode>, scope: Scope, now: int): (r: Option<nat>)
    ensures r.None? <==> forall e :: e in episodes && InScope(e, scope) ==> !Aired(e, now)
    ensures r.Some? ==> r.value == |AiredEpisodes(episodes, scope, now)| > 0
  {
    var aired := AiredEpisodes(episodes, scope, now);
    if |aired| == 0 then None
    else
      assert aired[0] in aired;
      Some(|aired|)
  }

  /** A weaker filter keeps at least as many rows. */
  lemma {:induction false} FilterWeaker<T(!new)>(s: seq<T>, p: T -> bool, q: T -> bool)
    requires forall x :: x in s && p(x) ==> q(x)
    ensures |Filter(s, p)| <= |Filter(s, q)|
  {
    if s != [] {
      FilterWeaker(s[1..], p, q);
    }
  }

  /** An episode that has aired stays aired: the aired count never drops as time passes. */
  lemma AiredCountMonotone(episodes: seq<Episode>, scope: Scope, now: int, later: int)
    requires now <= later
    ensures |AiredEpisodes(episodes, scope, now)| <= |AiredEpisodes(episodes, scope, later)|
  {
    FilterWeaker(episodes, e => InScope(e, scope) && Aired(e, now), e => InScope(e, scope) && Aired(e, later));
  }

  /**
    `now` is a full timestamp, release dates are usually date-only: an
    episode released on today's date has already aired and is not upcoming.
   */
  lemma ReleasedTodayHasAired(e: Episode, day: int, ms: int)
    requires 0 <= ms < MsPerDay && !e.isSpecialEpisode
    requires e.releaseDate == At(DateOnly(day))
    ensures Aired(e, Timestamp(day, ms)) && !Upcoming(e, Timestamp(day, ms))
  {
  }

  /**
    Aired and upcoming split the non-special episodes: no episode is both,
    and only an episode without a release date is neither.
   */
  lemma AiredUpcomingPartition(e: Episode, now: int)
    requires !e.isSpecialEpisode
    ensures !(Aired(e, now) && Upcoming(e, now))
    ensures Aired(e, now) || Upcoming(e, now) || e.releaseDate.Null?
  {
  }

  /** The user's distinct seen non-special episodes of a media item. */
  function SeenEpisodeIds(episodes: seq<Episode>, seen: seq<Seen>, userId: Id, mediaItemId: Id): set<Id> {
    set s | s in seen && s.userId == userId && s.mediaItemId == mediaItemId && s.episodeId.Some?
              && exists e :: e in episodes && e.id == s.episodeId.value && !e.isSpecialEpisode
      :: s.episodeId.value
  }

  /** The seen episodes count: the number of distinct `(mediaItemId, episodeId)` groups. */
  function SeenEpisodesCount(episodes: seq<Episode>, seen: seq<Seen>, userId: Id, mediaItemId: Id): (r: Option<nat>)
    ensures r.None? <==> forall s :: s in seen && s.userId == userId && s.mediaItemId == mediaItemId && s.episodeId.Some?
                            ==> forall e :: e in episodes && e.id == s.episodeId.value ==> e.isSpecialEpisode
    ensures r.Some? ==> r.value == |SeenEpisodeIds(episodes, seen, userId, mediaItemId)| > 0
  {
    var ids := SeenEpisodeIds(episodes, seen, userId, mediaItemId);
    assert forall s, e ::
      (s in seen && s.userId == userId && s.mediaItemId == mediaItemId && s.episodeId.Some?
       && e in episodes && e.id == s.episodeId.value && !e.isSpecialEpisode) ==> s.episodeId.value in ids;
    if |ids| == 0 then None
    else Some(|ids|)
  }

  /** Watching an episode again does not change the seen episodes count. */
  lemma SeenCountIgnoresRepeats(episodes: seq<Episode>, seen: seq<Seen>, userId: Id, mediaItemId: Id, again: Seen)
    requires exists s :: s in seen && s.userId == again.userId && s.mediaItemId == again.mediaItemId && s.episodeId == again.episodeId
    ensures SeenEpisodesCount(episodes, seen + [again], userId, mediaItemId) == SeenEpisodesCount(episodes, seen, userId, mediaItemId)
  {
    var old_ := SeenEpisodeIds(episodes, seen, userId, mediaItemId);
    var new_ := SeenEpisodeIds(episodes, seen + [again], userId, mediaItemId);
    var s :| s in seen && s.userId == again.userId && s.mediaItemId == again.mediaItemId && s.episodeId == again.episodeId;
    assert new_ == old_ by {
      forall id | id in new_ ensures id in old_ {
        var t :| t in seen + [again] && t.userId == userId && t.mediaItemId == mediaItemId && t.episodeId.Some?
                 && (exists e :: e in episodes && e.id == t.episodeId.value && !e.isSpecialEpisode) && t.episodeId.value == id;
        if t == again {
          assert s in seen && s.episodeId.value == id;
        }
      }
    }
  }

  /** Seeing a non-special episode for the first time adds one to the count. */
  lemma SeenCountCountsNewEpisode(episodes: seq<Episode>, seen: seq<Seen>, userId: Id, mediaItemId: Id, first: Seen, e: Episode)
    requires e in episodes && !e.isSpecialEpisode
    requires first.userId == userId && first.mediaItemId == mediaItemId && first.episodeId == Some(e.id)
    requires forall s :: s in seen && s.userId == userId && s.mediaItemId == mediaItemId ==> s.episodeId != Some(e.id)
    ensures SeenEpisodesCount(episodes, seen + [first], userId, mediaItemId).Some?
    ensures Num(SeenEpisodesCount(episodes, seen + [first], userId, mediaItemId))
            == Num(SeenEpisodesCount(episodes, seen, userId, mediaItemId)) + 1
  {
    var old_ := SeenEpisodeIds(episodes, seen, userId, mediaItemId);
    var new_ := SeenEpisodeIds(episodes, seen + [first], userId, mediaItemId);
    assert e.id !in old_;
    assert new_ == old_ + {e.id};
  }

  /** The smallest ordering key of a sequence of episodes (`min(seasonAndEpisodeNumber)`). */
  function MinKey(s: seq<Episode>): (r: Option<int>)
    ensures r.None? <==> s == []
    ensures r.Some? ==> exists e :: e in s && e.seasonAndEpisodeNumber == r.value
    ensures r.Some? ==> forall e :: e in s ==> r.value <= e.seasonAndEpisodeNumber
  {
    if s == [] then None
    else
      var rest := MinKey(s[1..]);
      assert forall e :: e in s[1..] ==> e in s;
      assert forall e :: e in s ==> e == s[0] || e in s[1..];
      if rest.Some? && rest.value < s[0].seasonAndEpisodeNumber then rest
      else Some(s[0].seasonAndEpisodeNumber)
  }

  /** The largest ordering key (`max(seasonAndEpisodeNumber)`). */
  function MaxKey(s: seq<Episode>): (r: Option<int>)
    ensures r.None? <==> s == []
    ensures r.Some? ==> exists e :: e in s && e.seasonAndEpisodeNumber == r.value
    ensures r.Some? ==> forall e :: e in s ==> e.seasonAndEpisodeNumber <= r.value
  {
    if s == [] then None
    else
      var rest := MaxKey(s[1..]);
      assert forall e :: e in s[1..] ==> e in s;
      assert forall e :: e in s ==> e == s[0] || e in s[1..];
      if rest.Some? && rest.value > s[0].seasonAndEpisodeNumber then rest
      else Some(s[0].seasonAndEpisodeNumber)
  }

  /**
    The join back from a subquery's key to an episode row: the first
    episode of the show or season with that ordering key.
   */
  function EpisodeWithKey(episodes: seq<Episode>, scope: Scope, key: int): (r: Option<Episode>)
    ensures r.Some? ==> r.value in episodes && InScope(r.value, scope) && r.value.seasonAndEpisodeNumber == key
    ensures r.None? ==> forall e :: e in episodes && InScope(e, scope) ==> e.seasonAndEpisodeNumber != key
  {
    if episodes == [] then None
    else if InScope(episodes[0], scope) && episodes[0].seasonAndEpisodeNumber == key then Some(episodes[0])
    else EpisodeWithKey(episodes[1..], scope, key)
  }

  /** The episode of the group whose key is the given aggregate of the candidates, if any. */
  function JoinKey(episodes: seq<Episode>, scope: Scope, key: Option<int>): Option<Episode> {
    if key.None? then None else EpisodeWithKey(episodes, scope, key.value)
  }

  function FirstUnwatchedCandidates(episodes: seq<Episode>, seen: seq<Seen>, userId: Id, scope: Scope, now: int): (r: seq<Episode>)
    ensures forall e :: e in r <==> e in episodes && InScope(e, scope) && UnwatchedAndOut(seen, userId, e, now)
  {
    Filter(episodes, e => InScope(e, scope) && UnwatchedAndOut(seen, userId, e, now))
  }

  /**
    The first unwatched episode of a show or season: an episode of the group
    whose key is the smallest among the released (on or before now, with a
    non-empty date), non-special episodes the user has no seen row for.
   */
  function FirstUnwatched(episodes: seq<Episode>, seen: seq<Seen>, userId: Id, scope: Scope, now: int): (r: Option<Episode>)
    ensures r.Some? <==> exists c :: c in episodes && InScope(c, scope) && UnwatchedAndOut(seen, userId, c, now)
    ensures r.Some? ==> r.value in episodes && InScope(r.value, scope)
    ensures r.Some? ==> forall c :: c in episodes && InScope(c, scope) && UnwatchedAndOut(seen, userId, c, now)
                          ==> r.value.seasonAndEpisodeNumber <= c.seasonAndEpisodeNumber
    ensures r.Some? ==> exists c :: c in episodes && InScope(c, scope) && UnwatchedAndOut(seen, userId, c, now)
                          && c.seasonAndEpisodeNumber == r.value.seasonAndEpisodeNumber
  {
    var candidates := FirstUnwatchedCandidates(episodes, seen, userId, scope, now);
    var key := MinKey(candidates);
    if key.Some? then
      var c :| c in candidates && c.seasonAndEpisodeNumber == key.value;
      assert EpisodeWithKey(episodes, scope, key.value).Some?;
      JoinKey(episodes, scope, key)
    else
      JoinKey(episodes, scope, key)
  }

  /** The last aired episode of a show: the largest key among its aired episodes. */
  function LastAired(episodes: seq<Episode>, showId: Id, now: int): (r: Option<Episode>)
    ensures r.Some? <==> exists c :: c in episodes && c.tvShowId == showId && Aired(c, now)
    ensures r.Some? ==> r.value in episodes && r.value.tvShowId == showId
    ensures r.Some? ==> forall c :: c in episodes && c.tvShowId == showId && Aired(c, now)
                          ==> c.seasonAndEpisodeNumber <= r.value.seasonAndEpisodeNumber
    ensures r.Some? ==> exists c :: c in episodes && c.tvShowId == showId && Aired(c, now)
                          && c.seasonAndEpisodeNumber == r.value.seasonAndEpisodeNumber
  {
    var candidates := AiredEpisodes(episodes, ShowScope(showId), now);
    var key := MaxKey(candidates);
    if key.Some? then
      var c :| c in candidates && c.seasonAndEpisodeNumber == key.value;
      assert EpisodeWithKey(episodes, ShowScope(showId), key.value).Some?;
      JoinKey(episodes, ShowScope(showId), key)
    else
      JoinKey(episodes, ShowScope(showId), key)
  }

  function UpcomingEpisodes(episodes: seq<Episode>, showId: Id, now: int): (r: seq<Episode>)
    ensures forall e :: e in r <==> e in episodes && e.tvShowId == showId && Upcoming(e, now)
  {
    Filter(episodes, (e: Episode) => e.tvShowId == showId && Upcoming(e, now))
  }

  /** The upcoming episode of a show: the smallest key among episodes released on or after now. */
  function UpcomingEpisode(episodes: seq<Episode>, showId: Id, now: int): (r: Option<Episode>)
    ensures r.Some? <==> exists c :: c in episodes && c.tvShowId == showId && Upcoming(c, now)
    ensures r.Some? ==> r.value in episodes && r.value.tvShowId == showId
    ensures r.Some? ==> forall c :: c in episodes && c.tvShowId == showId && Upcoming(c, now)
                          ==> r.value.seasonAndEpisodeNumber <= c.seasonAndEpisodeNumber
    ensures r.Some? ==> exists c :: c in episodes && c.tvShowId == showId && Upcoming(c, now)
                          && c.seasonAndEpisodeNumber == r.value.seasonAndEpisodeNumber
  {
    var candidates := UpcomingEpisodes(episodes, showId, now);
    var key := MinKey(candidates);
    if key.Some? then
      var c :| c in candidates && c.seasonAndEpisodeNumber == key.value;
      assert EpisodeWithKey(episodes, ShowScope(showId), key.value).Some?;
      JoinKey(episodes, ShowScope(showId), key)
    else
      JoinKey(episodes, ShowScope(showId), key)
  }

  function Runtimes(items: seq<MediaItem>, episodes: seq<Episode>): (r: seq<Option<int>>)
    ensures |r| == |episodes|
    ensures forall i :: 0 <= i < |episodes| ==> r[i] == EpisodeRuntime(items, episodes[i])
  {
    seq(|episodes|, i requires 0 <= i < |episodes| => EpisodeRuntime(items, episodes[i]))
  }

  /**
    The total runtime of a show or season: the SUM, over its aired
    episodes, of the episode runtime or else the show runtime.
   */
  function TotalRuntime(items: seq<MediaItem>, episodes: seq<Episode>, scope: Scope, now: int): (r: Option<int>)
    ensures r.None? <==> forall e :: e in episodes && InScope(e, scope) && Aired(e, now) ==> EpisodeRuntime(items, e).None?
  {
    var aired := AiredEpisodes(episodes, scope, now);
    var r := SqlSum(Runtimes(items, aired));
    assert r.None? <==> forall e :: e in aired ==> EpisodeRuntime(items, e).None? by {
      if !r.None? {
        var i :| 0 <= i < |aired| && Runtimes(items, aired)[i].Some?;
        assert aired[i] in aired;
      }
    }
    r
  }

  /** The SUM of n copies of one value. */
  lemma {:induction false} SqlSumUniform(values: seq<Option<int>>, v: int)
    requires values != [] && forall i :: 0 <= i < |values| ==> values[i] == Some(v)
    ensures SqlSum(values) == Some(|values| * v)
  {
    if |values| > 1 {
      assert forall i :: 0 <= i < |values[1..]| ==> values[1..][i] == values[i + 1];
      SqlSumUniform(values[1..], v);
    }
  }

  /**
    When no aired episode of a show has its own runtime, the show runtime
    is counted once per aired episode.
   */
  lemma TotalRuntimeFallsBackToShow(items: seq<MediaItem>, episodes: seq<Episode>, showId: Id, now: int, runtime: int)
    requires ShowRuntime(items, showId) == Some(runtime)
    requires forall e :: e in episodes && e.tvShowId == showId && Aired(e, now) ==> e.runtime.None?
    requires exists e :: e in episodes && e.tvShowId == showId && Aired(e, now)
    ensures TotalRuntime(items, episodes, ShowScope(showId), now)
            == Some(|AiredEpisodes(episodes, ShowScope(showId), now)| * runtime)
  {
    var aired := AiredEpisodes(episodes, ShowScope(showId), now);
    var e :| e in episodes && e.tvShowId == showId && Aired(e, now);
    assert e in aired;
    var values := Runtimes(items, aired);
    forall i | 0 <= i < |values| ensures values[i] == Some(runtime) {
      assert aired[i] in aired;
    }
    SqlSumUniform(values, runtime);
  }

  /** The granularity a membership or rating row is matched at. */
  datatype Level = ShowLevel(mediaItemId: Id) | SeasonLevel(seasonId: Id) | EpisodeLevel(episodeId: Id)

  /** The watchlist subqueries: a row of the watchlist at exactly the given granularity. */
  predicate WatchlistRowAt(row: ListItem, watchlistId: Id, level: Level) {
    row.listId == watchlistId &&
    match level
    case ShowLevel(m) => row.seasonId.None? && row.episodeId.None? && row.mediaItemId == m
    case SeasonLevel(s) => row.seasonId == Some(s) && row.episodeId.None?
    case EpisodeLevel(e) => row.episodeId == Some(e)
  }

  /** The id of the first watchlist row at the given granularity. */
  function WatchlistEntry(listItems: seq<ListItem>, watchlistId: Id, level: Level): (r: Option<Id>)
    ensures r.Some? ==> exists row :: row in listItems && WatchlistRowAt(row, watchlistId, level) && row.id == r.value
    ensures r.None? <==> forall row :: row in listItems ==> !WatchlistRowAt(row, watchlistId, level)
  {
    if listItems == [] then None
    else if WatchlistRowAt(listItems[0], watchlistId, level) then Some(listItems[0].id)
    else WatchlistEntry(listItems[1..], watchlistId, level)
  }

  /** A season's or an episode's watchlist row never counts as the show being on the watchlist. */
  lemma ShowWatchlistIgnoresNarrowerRows(listItems: seq<ListItem>, watchlistId: Id, mediaItemId: Id)
    requires forall row :: row in listItems && row.listId == watchlistId && row.mediaItemId == mediaItemId
               ==> row.seasonId.Some? || row.episodeId.Some?
    ensures WatchlistEntry(listItems, watchlistId, ShowLevel(mediaItemId)).None?
  {
  }

  /** The rating subqueries: a rating or review of the user at exactly the given granularity. */
  predicate RatingAt(r: UserRating, userId: Id, level: Level) {
    (r.rating.Some? || r.review.Some?) && r.userId == userId &&
    match level
    case ShowLevel(m) => r.mediaItemId == m && r.episodeId.None? && r.seasonId.None?
    case SeasonLevel(s) => r.episodeId.None? && r.seasonId == Some(s)
    case EpisodeLevel(e) => r.episodeId == Some(e) && r.seasonId.None?
  }

  function RatingEntry(ratings: seq<UserRating>, userId: Id, level: Level): (r: Option<UserRating>)
    ensures r.Some? ==> r.value in ratings && RatingAt(r.value, userId, level)
    ensures r.None? <==> forall x :: x in ratings ==> !RatingAt(x, userId, level)
  {
    if ratings == [] then None
    else if RatingAt(ratings[0], userId, level) then Some(ratings[0])
    else RatingEntry(ratings[1..], userId, level)
  }

  /** Ratings of a season or an episode of a show never stand in for the show's own rating. */
  lemma ShowRatingIgnoresNarrowerRatings(ratings: seq<UserRating>, userId: Id, mediaItemId: Id)
    requires forall x :: x in ratings && x.userId == userId && x.mediaItemId == mediaItemId
               ==> x.seasonId.Some? || x.episodeId.Some?
    ensures RatingEntry(ratings, userId, ShowLevel(mediaItemId)).None?
  {
  }

  function SeenDates(rows: seq<Seen>): (r: seq<Option<int>>)
    ensures |r| == |rows| && forall i :: 0 <= i < |rows| ==> r[i] == rows[i].date
  {
    seq(|rows|, i requires 0 <= i < |rows| => rows[i].date)
  }

  /** The largest date of some rows: NULL iff none has a date, else the date of one of them. */
  lemma MaxSeenDate(rows: seq<Seen>)
    ensures var r := SqlMax(SeenDates(rows));
      (r.None? <==> forall s :: s in rows ==> s.date.None?)
      && (r.Some? ==> exists s :: s in rows && s.date == r)
      && (r.Some? ==> forall s :: s in rows && s.date.Some? ==> s.date.value <= r.value)
  {
    var dates := SeenDates(rows);
    var r := SqlMax(dates);
    assert forall s :: s in rows ==> exists i :: 0 <= i < |rows| && rows[i] == s && dates[i] == s.date;
    if r.Some? {
      var i :| 0 <= i < |dates| && dates[i] == r;
      assert rows[i] in rows;
    }
  }

  /** `max(date)` over the seen rows a subquery groups together. */
  function LastSeenAt(seen: seq<Seen>, p: Seen -> bool): (r: Option<int>)
    ensures r.None? <==> forall s :: s in seen && p(s) ==> s.date.None?
    ensures r.Some? ==> exists s :: s in seen && p(s) && s.date == r
    ensures r.Some? ==> forall s :: s in seen && p(s) && s.date.Some? ==> s.date.value <= r.value
  {
    var rows := Filter(seen, p);
    MaxSeenDate(rows);
    SqlMax(SeenDates(rows))
  }

  /** The user's last seen date of an episode. */
  function EpisodeLastSeenAt(seen: seq<Seen>, userId: Id, episodeId: Id): (r: Option<int>)
    ensures r.None? <==> forall s :: s in seen && s.userId == userId && s.episodeId == Some(episodeId) ==> s.date.None?
    ensures r.Some? ==> exists s :: s in seen && s.userId == userId && s.episodeId == Some(episodeId) && s.date == r
    ensures r.Some? ==> forall s :: s in seen && s.userId == userId && s.episodeId == Some(episodeId) && s.date.Some? ==> s.date.value <= r.value
  {
    LastSeenAt(seen, (s: Seen) => s.userId == userId && s.episodeId == Some(episodeId))
  }

  /** The season of a seen row's episode (the `episode` left-joined on `seen.episodeId`). */
  predicate SeenInSeason(episodes: seq<Episode>, s: Seen, seasonId: Id) {
    s.episodeId.Some? && exists e :: e in episodes && e.id == s.episodeId.value && e.seasonId == Some(seasonId)
  }

  function SeasonLastSeenAt(episodes: seq<Episode>, seen: seq<Seen>, userId: Id, seasonId: Id): (r: Option<int>)
    ensures r.None? <==> forall s :: s in seen && s.userId == userId && SeenInSeason(episodes, s, seasonId) ==> s.date.None?
    ensures r.Some? ==> exists s :: s in seen && s.userId == userId && SeenInSeason(episodes, s, seasonId) && s.date == r
    ensures r.Some? ==> forall s :: s in seen && s.userId == userId && SeenInSeason(episodes, s, seasonId) && s.date.Some? ==> s.date.value <= r.value
  {
    LastSeenAt(seen, (s: Seen) => s.userId == userId && SeenInSeason(episodes, s, seasonId))
  }

  /**
    The show-level last-seen group: its key (`mediaItemLastSeen.mediaItemId`,
    present iff the user has any seen row for the item) and its `max(date)`.
   */
  datatype LastSeenGroup = LastSeenGroup(mediaItemId: Option<Id>, lastSeenAt: Option<int>)

  function MediaItemLastSeen(seen: seq<Seen>, userId: Id, mediaItemId: Id): (r: LastSeenGroup)
    ensures r.mediaItemId.Some? <==> exists s :: s in seen && s.userId == userId && s.mediaItemId == mediaItemId
    ensures r.mediaItemId.Some? ==> r.mediaItemId.value == mediaItemId
    ensures r.lastSeenAt.Some? ==> r.mediaItemId.Some?
    ensures r.lastSeenAt.None? <==> forall s :: s in seen && s.userId == userId && s.mediaItemId == mediaItemId ==> s.date.None?
    ensures r.lastSeenAt.Some? ==> exists s :: s in seen && s.userId == userId && s.mediaItemId == mediaItemId && s.date == r.lastSeenAt
    ensures r.lastSeenAt.Some? ==>
      forall s :: s in seen && s.userId == userId && s.mediaItemId == mediaItemId && s.date.Some? ==> s.date.value <= r.lastSeenAt.value
  {
    var p := (s: Seen) => s.userId == userId && s.mediaItemId == mediaItemId;
    var lastSeenAt := LastSeenAt(seen, p);
    if exists s :: s in seen && p(s) then LastSeenGroup(Some(mediaItemId), lastSeenAt)
    else LastSeenGroup(None, lastSeenAt)
  }
}
