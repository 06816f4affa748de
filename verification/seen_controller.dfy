/**
  The seen-history routes (server/src/controllers/seen.ts): marking items,
  seasons and episodes as seen, marking by external id with a 12-hour
  guard against duplicates, removing history, and reading it back newest
  first, optionally paged.
 */
module SeenController {
  import opened Entities
  import opened SeenEntity
  import opened Store
  import opened ListItemRepository
  import opened Pagination
  import opened Sorting

  /** What a route answers: success, a 400 with a body, or a thrown error. */
  datatype Response = Ok | BadRequest(body: string) | Error(message: string)

  /** The body of `res.sendStatus(400)`. */
  const BadRequestBody := "Bad Request"
  /** The error `add` throws when the last seen episode is not among the candidates. */
  const NoEpisodeError := "No episode with id"
  /** What reading `releaseDate` of a missing episode or season throws. */
  const MissingRowError := "Cannot read properties of undefined (reading 'releaseDate')"

  const HourMs := 60 * 60 * 1000
  const HalfDayMs := 1000 * 60 * 60 * 12
  const MinuteMs := 60 * 1000

  // ------------------------------------------------------------ add

  datatype LastSeenAt = Now | Unknown | ReleaseDate

  datatype AddArgs = AddArgs(
    userId: Id,
    mediaItemId: Id,
    seasonId: Option<Id>,
    episodeId: Option<Id>,
    lastSeenEpisodeId: Option<Id>,
    lastSeenAt: Option<LastSeenAt>,
    date: Option<int>,
    duration: Option<int>)

  /**
    What `add` takes from outside the tables: the clock, `parseISO(..).getTime()`
    (None for an invalid date) and the three `TvEpisodeFilters`.
   */
  datatype Env = Env(
    now: int,
    parseIso: Date -> Option<int>,
    unwatched: Episode -> bool,
    released: Episode -> bool,
    nonSpecial: Episode -> bool)

  /** A given date later than one hour from now is refused. */
  predicate TooLate(date: Option<int>, now: int) {
    Truthy(date) && date.value > now + HourMs
  }

  /**
    The `date` variable once `add` has resolved it: the given date, else
    what `lastSeenAt` asks for. Reading the release date of a missing
    episode or season throws.
   */
  function ResolvedDate(c: Catalog, args: AddArgs, m: MediaItem, env: Env): (r: Result<Option<int>>)
    ensures Truthy(args.date) ==> r == Success(args.date)
    ensures r.Failure? ==> !Truthy(args.date) && args.lastSeenAt == Some(ReleaseDate)
  {
    if Truthy(args.date) then Success(args.date)
    else
      match args.lastSeenAt
      case None => Success(None)
      case Some(Now) => Success(Some(env.now))
      case Some(Unknown) => Success(None)
      case Some(ReleaseDate) =>
        if Truthy(args.episodeId) then
          match FindEpisode(c.episodes, args.episodeId.value)
          case None => Failure(MissingRowError)
          case Some(e) => Success(env.parseIso(e.releaseDate))
        else if Truthy(args.seasonId) then
          match FindSeason(c.seasons, args.seasonId.value)
          case None => Failure(MissingRowError)
          case Some(s) => Success(env.parseIso(s.releaseDate))
        else Success(env.parseIso(m.releaseDate))
  }

  /** `tvEpisodeRepository.find({ tvShowId, seasonId: seasonId || undefined })`. */
  function ShowEpisodes(c: Catalog, showId: Id, seasonId: Option<Id>): (r: seq<Episode>)
    ensures forall e :: e in r <==> e in c.episodes && e.tvShowId == showId && (Truthy(seasonId) ==> e.seasonId == seasonId)
  {
    Filter(c.episodes, (e: Episode) => e.tvShowId == showId && (Truthy(seasonId) ==> e.seasonId == seasonId))
  }

  /** `e` comes no later than `last` in (seasonNumber, episodeNumber) order. */
  predicate UpTo(e: Episode, last: Episode) {
    e.seasonNumber < last.seasonNumber
    || (e.seasonNumber == last.seasonNumber && e.episodeNumber <= last.episodeNumber)
  }

  /** The episodes marked up to `last`: unwatched, released, non-special and not after it. */
  function SeenUpTo(env: Env, episodes: seq<Episode>, last: Episode): (r: seq<Episode>)
    ensures forall e :: e in r <==> e in episodes && env.unwatched(e) && env.released(e) && env.nonSpecial(e) && UpTo(e, last)
  {
    Filter(episodes, (e: Episode) => env.unwatched(e) && env.released(e) && env.nonSpecial(e) && UpTo(e, last))
  }

  /** The episodes a whole season marks: of that season, unwatched, non-special, released. */
  function SeasonEpisodes(c: Catalog, env: Env, seasonId: Id): (r: seq<Episode>)
    ensures forall e :: e in r <==> e in c.episodes && e.seasonId == Some(seasonId) && env.unwatched(e) && env.nonSpecial(e) && env.released(e)
  {
    Filter(c.episodes, (e: Episode) => e.seasonId == Some(seasonId) && env.unwatched(e) && env.nonSpecial(e) && env.released(e))
  }

  /** The episodes a whole show marks: non-special and released, watched or not. */
  function ShowReleased(c: Catalog, env: Env, showId: Id): (r: seq<Episode>)
    ensures forall e :: e in r <==> e in c.episodes && e.tvShowId == showId && env.nonSpecial(e) && env.released(e)
  {
    Filter(c.episodes, (e: Episode) => e.tvShowId == showId && env.nonSpecial(e) && env.released(e))
  }

  /** `episode.runtime * 60 * 1000 || mediaItem.runtime * 60 * 1000` (null counts as 0). */
  function EpisodeDuration(e: Episode, m: MediaItem): (r: int)
    ensures Num(e.runtime) != 0 ==> r == Num(e.runtime) * MinuteMs
    ensures Num(e.runtime) == 0 ==> r == Num(m.runtime) * MinuteMs
  {
    if Num(e.runtime) * MinuteMs != 0 then Num(e.runtime) * MinuteMs else Num(m.runtime) * MinuteMs
  }

  /** An episode row's date: the episode's own release date in `release_date` mode. */
  function RowDate(args: AddArgs, env: Env, date: Option<int>, e: Episode): Option<int> {
    if args.lastSeenAt == Some(ReleaseDate) then env.parseIso(e.releaseDate) else Norm(date)
  }

  function EpisodeRow(args: AddArgs, env: Env, m: MediaItem, date: Option<int>, e: Episode): Seen {
    Seen(None, RowDate(args, env, date, e), args.mediaItemId, Some(e.id), args.userId, Some(EpisodeDuration(e, m)))
  }

  /** One row per episode, in episode order. */
  function EpisodeRows(args: AddArgs, env: Env, m: MediaItem, date: Option<int>, episodes: seq<Episode>): (r: seq<Seen>)
    ensures |r| == |episodes|
    ensures forall i :: 0 <= i < |r| ==> r[i] == EpisodeRow(args, env, m, date, episodes[i])
  {
    seq(|episodes|, i requires 0 <= i < |episodes| => EpisodeRow(args, env, m, date, episodes[i]))
  }

  /** What `add` does: refuse (400), throw, or write rows and maybe leave the watchlist. */
  datatype AddPlan = Reject | Fail(message: string) | Write(rows: seq<Seen>, leaveWatchlist: bool)

  function Plan(c: Catalog, args: AddArgs, env: Env): (r: AddPlan)
    ensures FindMediaItem(c.mediaItems, args.mediaItemId).None? ==> r == Reject
    ensures r.Write? ==> forall s :: s in r.rows ==> s.id.None? && s.userId == args.userId && s.mediaItemId == args.mediaItemId
  {
    match FindMediaItem(c.mediaItems, args.mediaItemId)
    case None => Reject
    case Some(m) =>
      if TooLate(args.date, env.now) then Reject
      else
        match ResolvedDate(c, args, m, env)
        case Failure(e) => Fail(e)
        case Success(date) =>
          if Truthy(args.lastSeenEpisodeId) then
            var episodes := ShowEpisodes(c, args.mediaItemId, args.seasonId);
            match FindEpisode(episodes, args.lastSeenEpisodeId.value)
            case None => Fail(NoEpisodeError)
            case Some(last) => Write(EpisodeRows(args, env, m, date, SeenUpTo(env, episodes, last)), false)
          else if Truthy(args.episodeId) then
            if FindEpisode(c.episodes, args.episodeId.value).None? then Reject
            else Write([Seen(None, Norm(date), args.mediaItemId, args.episodeId, args.userId, None)], m.mediaType != Tv)
          else if Truthy(args.seasonId) then
            Write(EpisodeRows(args, env, m, date, SeasonEpisodes(c, env, args.seasonId.value)), m.mediaType != Tv)
          else if m.mediaType == Tv then
            Write(EpisodeRows(args, env, m, date, ShowReleased(c, env, args.mediaItemId)), false)
          else
            Write([Seen(None, Norm(date), args.mediaItemId, None, args.userId, Norm(args.duration))], true)
  }

  /** The `removeItem` call that takes a marked item off the user's watchlist. */
  function WatchlistArgs(args: AddArgs): ItemArgs {
    ItemArgs(args.userId, args.mediaItemId, None, None, None, Some(true))
  }

  /** Rows as the table stores them: ids handed out from `next` on, in order. */
  function Stored(next: Id, rows: seq<Seen>): (r: seq<Seen>)
    ensures |r| == |rows|
    ensures forall i :: 0 <= i < |r| ==> r[i] == rows[i].(id := Some(next + i))
  {
    seq(|rows|, i requires 0 <= i < |rows| => rows[i].(id := Some(next + i)))
  }

  /**
    The resolution of `date` as `add` writes it: one variable reassigned by
    `lastSeenAt`. This is the implementation; `ResolvedDate` specifies it.
   */
  method ResolveDate(c: Catalog, args: AddArgs, m: MediaItem, env: Env) returns (r: Result<Option<int>>)
    ensures r == ResolvedDate(c, args, m, env)
  {
    var date := Norm(args.date);
    if date.None? {
      match args.lastSeenAt {
        case None =>
        case Some(Now) =>
          date := Some(env.now);
        case Some(Unknown) =>
          date := None;
        case Some(ReleaseDate) =>
          if Truthy(args.episodeId) {
            var episode := FindEpisode(c.episodes, args.episodeId.value);
            if episode.None? {
              return Failure(MissingRowError);
            }
            date := env.parseIso(episode.value.releaseDate);
          } else if Truthy(args.seasonId) {
            var season := FindSeason(c.seasons, args.seasonId.value);
            if season.None? {
              return Failure(MissingRowError);
            }
            date := env.parseIso(season.value.releaseDate);
          } else {
            date := env.parseIso(m.releaseDate);
          }
      }
    }
    return Success(date);
  }

  /** `seenRepository.createMany`: the rows are inserted one after another. */
  method CreateMany(db: Db, rows: seq<Seen>)
    requires db.Valid()
    modifies db
    ensures db.Valid()
    ensures db.seen == old(db.seen) + Stored(old(db.nextSeenId), rows)
    ensures db.nextSeenId == old(db.nextSeenId) + |rows|
    ensures db.lists == old(db.lists) && db.listItems == old(db.listItems)
    ensures db.nextListId == old(db.nextListId) && db.nextListItemId == old(db.nextListItemId)
  {
    var i := 0;
    while i < |rows|
      invariant 0 <= i <= |rows|
      invariant db.Valid()
      invariant db.nextSeenId == old(db.nextSeenId) + i
      invariant db.seen == old(db.seen) + Stored(old(db.nextSeenId), rows[..i])
      invariant db.lists == old(db.lists) && db.listItems == old(db.listItems)
      invariant db.nextListId == old(db.nextListId) && db.nextListItemId == old(db.nextListItemId)
    {
      var row := rows[i].(id := Some(db.nextSeenId));
      SeenValidAppend(db.seen, db.nextSeenId, row);
      assert Stored(old(db.nextSeenId), rows[..i + 1]) == Stored(old(db.nextSeenId), rows[..i]) + [row];
      db.seen := db.seen + [row];
      db.nextSeenId := db.nextSeenId + 1;
      i := i + 1;
    }
    assert rows[..i] == rows;
  }

  /**
    `add`: marks the request's target as seen. A refused request (missing
    item, date too late, missing episode) and a thrown one write nothing.
   */
  method Add(db: Db, c: Catalog, args: AddArgs, env: Env) returns (resp: Response)
    requires db.Valid()
    modifies db
    ensures db.Valid()
    ensures Plan(c, args, env).Reject? ==> resp == BadRequest(BadRequestBody) && unchanged(db)
    ensures Plan(c, args, env).Fail? ==> resp == Error(Plan(c, args, env).message) && unchanged(db)
    ensures Plan(c, args, env).Write? ==> resp == Ok
    ensures Plan(c, args, env).Write? ==>
      var plan := Plan(c, args, env);
      db.seen == old(db.seen) + Stored(old(db.nextSeenId), plan.rows)
      && db.nextSeenId == old(db.nextSeenId) + |plan.rows|
      && db.listItems == (if plan.leaveWatchlist then RemoveResult(old(db.lists), old(db.listItems), WatchlistArgs(args))
                          else old(db.listItems))
      && db.lists == old(db.lists) && db.nextListId == old(db.nextListId) && db.nextListItemId == old(db.nextListItemId)
  {
    var mediaItem := FindMediaItem(c.mediaItems, args.mediaItemId);
    if mediaItem.None? {
      return BadRequest(BadRequestBody);
    }
    var m := mediaItem.value;
    if TooLate(args.date, env.now) {
      return BadRequest(BadRequestBody);
    }
    var resolved := ResolveDate(c, args, m, env);
    if resolved.Failure? {
      return Error(resolved.error);
    }
    var date := resolved.value;
    var rows: seq<Seen>;
    var leave := false;
    if Truthy(args.lastSeenEpisodeId) {
      var episodes := ShowEpisodes(c, args.mediaItemId, args.seasonId);
      var last := FindEpisode(episodes, args.lastSeenEpisodeId.value);
      if last.None? {
        return Error(NoEpisodeError);
      }
      rows := EpisodeRows(args, env, m, date, SeenUpTo(env, episodes, last.value));
    } else {
      if Truthy(args.episodeId) {
        if FindEpisode(c.episodes, args.episodeId.value).None? {
          return BadRequest(BadRequestBody);
        }
        rows := [Seen(None, Norm(date), args.mediaItemId, args.episodeId, args.userId, None)];
      } else if Truthy(args.seasonId) {
        rows := EpisodeRows(args, env, m, date, SeasonEpisodes(c, env, args.seasonId.value));
      } else if m.mediaType == Tv {
        rows := EpisodeRows(args, env, m, date, ShowReleased(c, env, args.mediaItemId));
      } else {
        rows := [Seen(None, Norm(date), args.mediaItemId, None, args.userId, Norm(args.duration))];
      }
      leave := m.mediaType != Tv;
    }
    CreateMany(db, rows);
    if leave {
      var _ := RemoveItem(db, WatchlistArgs(args));
    }
    return Ok;
  }

  /**
    `add` writes rows exactly when the media item exists, the date is not
    later than an hour from now, nothing it reads is missing and, with a
    last seen episode, that episode is among the candidates.
   */
  lemma AddRejectedIff(c: Catalog, args: AddArgs, env: Env)
    ensures Plan(c, args, env).Reject? <==>
      FindMediaItem(c.mediaItems, args.mediaItemId).None?
      || TooLate(args.date, env.now)
      || (ResolvedDate(c, args, FindMediaItem(c.mediaItems, args.mediaItemId).value, env).Success?
          && !Truthy(args.lastSeenEpisodeId) && Truthy(args.episodeId)
          && FindEpisode(c.episodes, args.episodeId.value).None?)
  {
  }

  /** A given date more than an hour after now writes nothing. */
  lemma FutureDateWritesNothing(c: Catalog, args: AddArgs, env: Env)
    requires Truthy(args.date) && args.date.value > env.now + HourMs
    ensures Plan(c, args, env) == Reject
  {
  }

  /**
    Marking up to a last seen episode writes one row per episode of the
    show (and of the season, when given) that is unwatched, released,
    non-special and no later than that episode, and never touches the
    watchlist.
   */
  lemma MarkUpToLastEpisode(c: Catalog, args: AddArgs, env: Env)
    requires Truthy(args.lastSeenEpisodeId)
    requires Plan(c, args, env).Write?
    ensures var plan := Plan(c, args, env);
      var last := FindEpisode(ShowEpisodes(c, args.mediaItemId, args.seasonId), args.lastSeenEpisodeId.value).value;
      !plan.leaveWatchlist
      && last.id == args.lastSeenEpisodeId.value && last.tvShowId == args.mediaItemId
      && (forall row :: row in plan.rows ==> row.episodeId.Some? && row.mediaItemId == args.mediaItemId)
      && (forall e :: e in c.episodes && e.tvShowId == args.mediaItemId
            && (Truthy(args.seasonId) ==> e.seasonId == args.seasonId)
            && env.unwatched(e) && env.released(e) && env.nonSpecial(e) && UpTo(e, last)
            ==> exists row :: row in plan.rows && row.episodeId == Some(e.id))
  {
    var m := FindMediaItem(c.mediaItems, args.mediaItemId).value;
    var date := ResolvedDate(c, args, m, env).value;
    var episodes := ShowEpisodes(c, args.mediaItemId, args.seasonId);
    var last := FindEpisode(episodes, args.lastSeenEpisodeId.value).value;
    var selected := SeenUpTo(env, episodes, last);
    var rows := Plan(c, args, env).rows;
    forall e | e in c.episodes && e.tvShowId == args.mediaItemId && (Truthy(args.seasonId) ==> e.seasonId == args.seasonId)
        && env.unwatched(e) && env.released(e) && env.nonSpecial(e) && UpTo(e, last)
      ensures exists row :: row in rows && row.episodeId == Some(e.id)
    {
      assert e in selected;
      var i :| 0 <= i < |selected| && selected[i] == e;
      assert rows[i].episodeId == Some(e.id);
    }
  }

  /** Every row written up to a last seen episode is for a selected episode, and only those. */
  lemma MarkUpToLastEpisodeOnly(c: Catalog, args: AddArgs, env: Env, row: Seen)
    requires Truthy(args.lastSeenEpisodeId)
    requires Plan(c, args, env).Write? && row in Plan(c, args, env).rows
    ensures var last := FindEpisode(ShowEpisodes(c, args.mediaItemId, args.seasonId), args.lastSeenEpisodeId.value).value;
      exists e :: e in c.episodes && row.episodeId == Some(e.id)
        && e.tvShowId == args.mediaItemId && (Truthy(args.seasonId) ==> e.seasonId == args.seasonId)
        && env.unwatched(e) && env.released(e) && env.nonSpecial(e) && UpTo(e, last)
  {
    var m := FindMediaItem(c.mediaItems, args.mediaItemId).value;
    var date := ResolvedDate(c, args, m, env).value;
    var episodes := ShowEpisodes(c, args.mediaItemId, args.seasonId);
    var last := FindEpisode(episodes, args.lastSeenEpisodeId.value).value;
    var selected := SeenUpTo(env, episodes, last);
    var rows := Plan(c, args, env).rows;
    var i :| 0 <= i < |rows| && rows[i] == row;
    assert selected[i] in selected;
  }

  /** A last seen episode that is not among the show's (or season's) episodes throws. */
  lemma UnknownLastEpisodeThrows(c: Catalog, args: AddArgs, env: Env)
    requires FindMediaItem(c.mediaItems, args.mediaItemId).Some? && !TooLate(args.date, env.now)
    requires ResolvedDate(c, args, FindMediaItem(c.mediaItems, args.mediaItemId).value, env).Success?
    requires Truthy(args.lastSeenEpisodeId)
    requires forall e :: e in c.episodes && e.id == args.lastSeenEpisodeId.value ==>
      e.tvShowId != args.mediaItemId || (Truthy(args.seasonId) && e.seasonId != args.seasonId)
    ensures Plan(c, args, env) == Fail(NoEpisodeError)
  {
  }

  /**
    Marking a whole show writes a row for every released non-special
    episode, even one the unwatched filter would drop; marking a season
    does not.
   */
  lemma ShowMarkIgnoresWatched(c: Catalog, args: AddArgs, env: Env, e: Episode)
    requires !Truthy(args.lastSeenEpisodeId) && !Truthy(args.episodeId) && !Truthy(args.seasonId)
    requires Plan(c, args, env).Write?
    requires FindMediaItem(c.mediaItems, args.mediaItemId).value.mediaType == Tv
    requires e in c.episodes && e.tvShowId == args.mediaItemId && env.nonSpecial(e) && env.released(e)
    ensures exists row :: row in Plan(c, args, env).rows && row.episodeId == Some(e.id)
    ensures !Plan(c, args, env).leaveWatchlist
  {
    var m := FindMediaItem(c.mediaItems, args.mediaItemId).value;
    var date := ResolvedDate(c, args, m, env).value;
    var selected := ShowReleased(c, env, args.mediaItemId);
    var rows := Plan(c, args, env).rows;
    assert e in selected;
    var i :| 0 <= i < |selected| && selected[i] == e;
    assert rows[i].episodeId == Some(e.id);
  }

  lemma SeasonMarkSkipsWatched(c: Catalog, args: AddArgs, env: Env, row: Seen)
    requires !Truthy(args.lastSeenEpisodeId) && !Truthy(args.episodeId) && Truthy(args.seasonId)
    requires Plan(c, args, env).Write? && row in Plan(c, args, env).rows
    ensures exists e :: (e in c.episodes && row.episodeId == Some(e.id)
      && e.seasonId == args.seasonId && env.unwatched(e) && env.nonSpecial(e) && env.released(e))
  {
    var m := FindMediaItem(c.mediaItems, args.mediaItemId).value;
    var selected := SeasonEpisodes(c, env, args.seasonId.value);
    var rows := Plan(c, args, env).rows;
    var i :| 0 <= i < |rows| && rows[i] == row;
    assert selected[i] in selected;
  }

  /**
    In `release_date` mode every episode row carries its episode's release
    date, even when the request gave a date.
   */
  lemma ReleaseDateModeWins(c: Catalog, args: AddArgs, env: Env, e: Episode, m: MediaItem, date: Option<int>)
    requires args.lastSeenAt == Some(ReleaseDate)
    ensures EpisodeRow(args, env, m, date, e).date == env.parseIso(e.releaseDate)
  {
  }

  /** Outside `release_date` mode, every row written carries the given date. */
  lemma RowsCarryGivenDate(c: Catalog, args: AddArgs, env: Env)
    requires Truthy(args.date) && args.lastSeenAt != Some(ReleaseDate)
    requires Plan(c, args, env).Write?
    ensures forall row :: row in Plan(c, args, env).rows ==> row.date == args.date
  {
    var rows := Plan(c, args, env).rows;
    forall row | row in rows
      ensures row.date == args.date
    {
      var i :| 0 <= i < |rows| && rows[i] == row;
    }
  }

  /**
    Episode rows always carry a duration, 0 when neither the episode nor
    the show has a runtime.
   */
  lemma EpisodeRowsHaveDuration(args: AddArgs, env: Env, m: MediaItem, date: Option<int>, e: Episode)
    ensures EpisodeRow(args, env, m, date, e).duration.Some?
    ensures e.runtime.None? && m.runtime.None? ==> EpisodeRow(args, env, m, date, e).duration == Some(0)
    ensures Num(e.runtime) > 0 ==> EpisodeRow(args, env, m, date, e).duration.value > 0
  {
  }

  /**
    Only items that are not tv shows leave the watchlist, and only when
    they are not marked up to a last seen episode.
   */
  lemma WatchlistRemovalIff(c: Catalog, args: AddArgs, env: Env)
    requires Plan(c, args, env).Write?
    ensures Plan(c, args, env).leaveWatchlist <==>
      !Truthy(args.lastSeenEpisodeId) && FindMediaItem(c.mediaItems, args.mediaItemId).value.mediaType != Tv
  {
  }

  /**
    Marking a movie (or any item that is not a show) without season or
    episode writes exactly one media-item row with the given duration.
   */
  lemma MarkItemWritesOneRow(c: Catalog, args: AddArgs, env: Env)
    requires !Truthy(args.lastSeenEpisodeId) && !Truthy(args.episodeId) && !Truthy(args.seasonId)
    requires Plan(c, args, env).Write?
    requires FindMediaItem(c.mediaItems, args.mediaItemId).value.mediaType != Tv
    ensures var rows := Plan(c, args, env).rows;
      |rows| == 1 && MediaItemSeenValue(rows[0]) && rows[0].duration == Norm(args.duration)
      && rows[0].userId == args.userId && rows[0].mediaItemId == args.mediaItemId
  {
  }

  /** Stored rows get fresh ids, distinct from each other and from every id already in the table. */
  lemma StoredKeepsSeenValid(seen: seq<Seen>, next: Id, rows: seq<Seen>)
    requires SeenValid(seen, next)
    ensures SeenValid(seen + Stored(next, rows), next + |rows|)
  {
    var all := seen + Stored(next, rows);
    forall i, j | 0 <= i < j < |all|
      ensures SeenKey(all[i]) != SeenKey(all[j])
    {
      if j < |seen| {
      } else if i < |seen| {
        assert all[i] in seen;
      }
    }
    forall s | s in all
      ensures s.id.Some? && 0 < s.id.value < next + |rows|
    {
      if s !in seen {
        var k :| 0 <= k < |all| && all[k] == s;
        assert k >= |seen|;
      }
    }
  }

  // ------------------------------------------------------------ addByExternalId

  /** The item (and episode) an external id resolved to. */
  datatype ExternalMatch = ExternalMatch(mediaItem: MediaItem, episode: Option<Episode>)

  /** `episode?.id || null`. */
  function ExternalEpisodeId(x: ExternalMatch): (r: Option<Id>)
    ensures r.Some? <==> x.episode.Some? && x.episode.value.id != 0
  {
    if x.episode.Some? then Norm(Some(x.episode.value.id)) else None
  }

  /** A seen row for the same user, item and episode dated within the last 12 hours. */
  predicate SeenRecently(seen: seq<Seen>, userId: Id, mediaItemId: Id, episodeId: Option<Id>, now: int) {
    exists s :: s in seen && s.userId == userId && s.mediaItemId == mediaItemId && s.episodeId == episodeId
      && s.date.Some? && s.date.value > now - HalfDayMs
  }

  /** The row `addByExternalId` inserts, dated now. */
  function ExternalRow(id: Id, userId: Id, x: ExternalMatch, duration: Option<int>, now: int): Seen {
    Seen(Some(id), Some(now), x.mediaItem.id, ExternalEpisodeId(x), userId, duration)
  }

  /**
    `addByExternalId`: a failed lookup is a 400 with its message; otherwise
    one row dated now, unless the same event was seen in the last 12 hours.
   */
  method AddByExternalId(db: Db, userId: Id, found: Result<ExternalMatch>, duration: Option<int>, now: int)
    returns (resp: Response)
    requires db.Valid()
    modifies db
    ensures db.Valid()
    ensures found.Failure? ==> resp == BadRequest(found.error) && unchanged(db)
    ensures found.Success? ==> resp == Ok
    ensures found.Success? && SeenRecently(old(db.seen), userId, found.value.mediaItem.id, ExternalEpisodeId(found.value), now)
      ==> unchanged(db)
    ensures found.Success? && !SeenRecently(old(db.seen), userId, found.value.mediaItem.id, ExternalEpisodeId(found.value), now)
      ==> (db.seen == old(db.seen) + [ExternalRow(old(db.nextSeenId), userId, found.value, duration, now)]
        && db.nextSeenId == old(db.nextSeenId) + 1
        && db.lists == old(db.lists) && db.listItems == old(db.listItems)
        && db.nextListId == old(db.nextListId) && db.nextListItemId == old(db.nextListItemId))
  {
    if found.Failure? {
      return BadRequest(found.error);
    }
    var x := found.value;
    var episodeId := ExternalEpisodeId(x);
    if SeenRecently(db.seen, userId, x.mediaItem.id, episodeId, now) {
      return Ok;
    }
    var row := ExternalRow(db.nextSeenId, userId, x, duration, now);
    SeenValidAppend(db.seen, db.nextSeenId, row);
    db.seen := db.seen + [row];
    db.nextSeenId := db.nextSeenId + 1;
    return Ok;
  }

  /** Once inserted, a repeat of the same event within 12 hours inserts nothing. */
  lemma ExternalRepeatWithinWindow(seen: seq<Seen>, id: Id, userId: Id, x: ExternalMatch, duration: Option<int>, now: int, later: int)
    requires later < now + HalfDayMs
    ensures SeenRecently(seen + [ExternalRow(id, userId, x, duration, now)], userId, x.mediaItem.id, ExternalEpisodeId(x), later)
  {
    var row := ExternalRow(id, userId, x, duration, now);
    assert row in seen + [row];
  }

  /**
    Twelve hours or more after the insert, the row no longer blocks a
    repeat: the window is strict.
   */
  lemma ExternalRepeatAfterWindow(seen: seq<Seen>, id: Id, userId: Id, x: ExternalMatch, duration: Option<int>, now: int, later: int)
    requires later >= now + HalfDayMs
    requires !SeenRecently(seen, userId, x.mediaItem.id, ExternalEpisodeId(x), later)
    ensures !SeenRecently(seen + [ExternalRow(id, userId, x, duration, now)], userId, x.mediaItem.id, ExternalEpisodeId(x), later)
  {
  }

  /** A seen row of another episode, item or user never blocks the insert. */
  lemma ExternalWindowIsPerEvent(seen: seq<Seen>, userId: Id, mediaItemId: Id, episodeId: Option<Id>, now: int, s: Seen)
    requires !SeenRecently(seen, userId, mediaItemId, episodeId, now)
    requires s.userId != userId || s.mediaItemId != mediaItemId || s.episodeId != episodeId
    ensures !SeenRecently(seen + [s], userId, mediaItemId, episodeId, now)
  {
  }

  // ------------------------------------------------------------ removeFromSeenHistory

  /**
    The rows `removeFromSeenHistory` deletes: the user's rows of the
    episode when one is given, else of the season's episodes when a season
    is given, else of the whole media item.
   */
  predicate Erased(c: Catalog, userId: Id, mediaItemId: Id, seasonId: Option<Id>, episodeId: Option<Id>, s: Seen) {
    s.userId == userId &&
    if Truthy(episodeId) then s.episodeId == episodeId
    else if Truthy(seasonId) then
      exists e :: e in c.episodes && e.seasonId == seasonId && s.episodeId == Some(e.id)
    else s.mediaItemId == mediaItemId
  }

  function AfterRemoval(c: Catalog, seen: seq<Seen>, userId: Id, mediaItemId: Id, seasonId: Option<Id>, episodeId: Option<Id>): (r: seq<Seen>)
    ensures forall s :: s in r <==> s in seen && !Erased(c, userId, mediaItemId, seasonId, episodeId, s)
  {
    Filter(seen, (s: Seen) => !Erased(c, userId, mediaItemId, seasonId, episodeId, s))
  }

  method RemoveFromSeenHistory(db: Db, c: Catalog, userId: Id, mediaItemId: Id, seasonId: Option<Id>, episodeId: Option<Id>)
    requires db.Valid()
    modifies db
    ensures db.Valid()
    ensures db.seen == AfterRemoval(c, old(db.seen), userId, mediaItemId, seasonId, episodeId)
    ensures db.lists == old(db.lists) && db.listItems == old(db.listItems)
    ensures db.nextSeenId == old(db.nextSeenId) && db.nextListId == old(db.nextListId)
    ensures db.nextListItemId == old(db.nextListItemId)
  {
    SeenValidFilter(db.seen, db.nextSeenId, (s: Seen) => !Erased(c, userId, mediaItemId, seasonId, episodeId, s));
    db.seen := AfterRemoval(c, db.seen, userId, mediaItemId, seasonId, episodeId);
  }

  /** An episode id decides alone: the season and the media item are then ignored. */
  lemma EpisodeRemovalIgnoresOthers(c: Catalog, seen: seq<Seen>, userId: Id, m1: Id, m2: Id, s1: Option<Id>, s2: Option<Id>, episodeId: Option<Id>)
    requires Truthy(episodeId)
    ensures AfterRemoval(c, seen, userId, m1, s1, episodeId) == AfterRemoval(c, seen, userId, m2, s2, episodeId)
  {
    FilterSamePredicate(seen, (s: Seen) => !Erased(c, userId, m1, s1, episodeId, s), (s: Seen) => !Erased(c, userId, m2, s2, episodeId, s));
  }

  /** Without an episode, a season decides: the media item is ignored. */
  lemma SeasonRemovalIgnoresItem(c: Catalog, seen: seq<Seen>, userId: Id, m1: Id, m2: Id, seasonId: Option<Id>, episodeId: Option<Id>)
    requires !Truthy(episodeId) && Truthy(seasonId)
    ensures AfterRemoval(c, seen, userId, m1, seasonId, episodeId) == AfterRemoval(c, seen, userId, m2, seasonId, episodeId)
  {
    FilterSamePredicate(seen, (s: Seen) => !Erased(c, userId, m1, seasonId, episodeId, s), (s: Seen) => !Erased(c, userId, m2, seasonId, episodeId, s));
  }

  /**
    Removal keeps every row of other users and every row it does not
    target, and removes every row it targets.
   */
  lemma RemovalKeepsOthers(c: Catalog, seen: seq<Seen>, userId: Id, mediaItemId: Id, seasonId: Option<Id>, episodeId: Option<Id>, s: Seen)
    requires s in seen
    ensures s in AfterRemoval(c, seen, userId, mediaItemId, seasonId, episodeId) <==> !Erased(c, userId, mediaItemId, seasonId, episodeId, s)
    ensures s.userId != userId ==> s in AfterRemoval(c, seen, userId, mediaItemId, seasonId, episodeId)
  {
  }

  /** Removing the whole item removes its episode rows too. */
  lemma ItemRemovalTakesEpisodes(c: Catalog, seen: seq<Seen>, userId: Id, mediaItemId: Id, s: Seen)
    requires s in seen && s.userId == userId && s.mediaItemId == mediaItemId
    ensures s !in AfterRemoval(c, seen, userId, mediaItemId, None, None)
  {
  }

  /** Removing twice removes nothing more. */
  lemma RemovalIdempotent(c: Catalog, seen: seq<Seen>, userId: Id, mediaItemId: Id, seasonId: Option<Id>, episodeId: Option<Id>)
    ensures var once := AfterRemoval(c, seen, userId, mediaItemId, seasonId, episodeId);
      AfterRemoval(c, once, userId, mediaItemId, seasonId, episodeId) == once
  {
    FilterIdempotent(seen, (s: Seen) => !Erased(c, userId, mediaItemId, seasonId, episodeId, s));
  }

  lemma {:induction false} FilterIdempotent<T(!new)>(s: seq<T>, p: T -> bool)
    ensures Filter(Filter(s, p), p) == Filter(s, p)
  {
    if s != [] {
      FilterIdempotent(s[1..], p);
      if p(s[0]) {
        assert Filter(s, p) == [s[0]] + Filter(s[1..], p);
        assert Filter(s, p)[1..] == Filter(s[1..], p);
      }
    }
  }

  lemma {:induction false} FilterSamePredicate<T(!new)>(s: seq<T>, p: T -> bool, q: T -> bool)
    requires forall x :: x in s ==> p(x) == q(x)
    ensures Filter(s, p) == Filter(s, q)
  {
    if s != [] {
      assert s[0] in s;
      assert forall x :: x in s[1..] ==> x in s;
      FilterSamePredicate(s[1..], p, q);
    }
  }

  // ------------------------------------------------------------ get

  datatype SeenQuery = SeenQuery(
    userId: Id,
    page: Option<nat>,
    limit: Option<nat>,
    extended: bool,
    mediaType: Option<MediaType>,
    tmdbId: Option<int>,
    seasonNumber: Option<int>,
    episodeNumber: Option<int>)

  /**
    The joined columns of the extended form. Both `mediaItem.title` and
    `episode.title` are selected under the name `title`; the row keeps the
    later one, the episode's.
   */
  datatype SeenDetails = SeenDetails(
    title: Option<string>,
    mediaType: Option<MediaType>,
    tmdbId: Option<int>,
    seasonNumber: Option<int>,
    episodeNumber: Option<int>)

  datatype SeenRow = SeenRow(seen: Seen, details: Option<SeenDetails>)

  datatype SeenPage = AllRows(rows: seq<SeenRow>) | PageOf(paged: Paged<SeenRow>)

  /** `LEFT JOIN episode ON episode.id = seen.episodeId`. */
  function JoinedEpisode(c: Catalog, s: Seen): (r: Option<Episode>)
    ensures r.Some? ==> s.episodeId == Some(r.value.id) && r.value in c.episodes
  {
    if s.episodeId.Some? then FindEpisode(c.episodes, s.episodeId.value) else None
  }

  function Details(c: Catalog, s: Seen): SeenDetails {
    var m := FindMediaItem(c.mediaItems, s.mediaItemId);
    var e := JoinedEpisode(c, s);
    SeenDetails(
      if e.Some? then Some(e.value.title) else None,
      if m.Some? then Some(m.value.mediaType) else None,
      if m.Some? then m.value.tmdbId else None,
      if e.Some? then Some(e.value.seasonNumber) else None,
      if e.Some? then Some(e.value.episodeNumber) else None)
  }

  /** The WHERE clause: the user's rows, and in extended form the joined filters (NULL never matches). */
  predicate Matches(c: Catalog, q: SeenQuery, s: Seen) {
    s.userId == q.userId &&
    (q.extended ==>
      var d := Details(c, s);
      (q.mediaType.Some? ==> d.mediaType == q.mediaType)
      && (Truthy(q.tmdbId) ==> d.tmdbId == q.tmdbId)
      && (q.seasonNumber.Some? ==> d.seasonNumber == q.seasonNumber)
      && (q.episodeNumber.Some? ==> d.episodeNumber == q.episodeNumber))
  }

  function RowOf(c: Catalog, q: SeenQuery, s: Seen): SeenRow {
    SeenRow(s, if q.extended then Some(Details(c, s)) else None)
  }

  function RowsOf(c: Catalog, q: SeenQuery, ss: seq<Seen>): (r: seq<SeenRow>)
    ensures |r| == |ss|
    ensures forall i :: 0 <= i < |r| ==> r[i] == RowOf(c, q, ss[i])
  {
    seq(|ss|, i requires 0 <= i < |ss| => RowOf(c, q, ss[i]))
  }

  /** `ORDER BY seen.date DESC`: later first, undated (NULL) last. */
  predicate LaterOrSame(a: SeenRow, b: SeenRow) {
    b.seen.date.None? || (a.seen.date.Some? && a.seen.date.value >= b.seen.date.value)
  }

  lemma LaterOrSameIsTotalPreorder()
    ensures TotalPreorder(LaterOrSame)
  {
  }

  function Matching(c: Catalog, seen: seq<Seen>, q: SeenQuery): seq<Seen> {
    Filter(seen, (s: Seen) => Matches(c, q, s))
  }

  /** `get`: the matching rows newest first, paged when a page is given. */
  function Get(c: Catalog, seen: seq<Seen>, q: SeenQuery): (r: Result<SeenPage>)
    ensures r.Failure? <==> q.page.Some? && q.page.value != 0 && ItemsPerPage(q.limit) * (q.page.value - 1) > |Matching(c, seen, q)|
  {
    var ordered := SortBy(RowsOf(c, q, Matching(c, seen, q)), LaterOrSame);
    if q.page.Some? && q.page.value != 0 then
      match Paginate(ordered, q.page.value, ItemsPerPage(q.limit))
      case Failure(e) => Failure(e)
      case Success(p) => Success(PageOf(p))
    else Success(AllRows(ordered))
  }

  /**
    Unpaged, the history holds exactly the matching rows of the user,
    newest first with undated rows last.
   */
  lemma GetIsUserHistoryNewestFirst(c: Catalog, seen: seq<Seen>, q: SeenQuery)
    requires q.page.None? || q.page.value == 0
    ensures var r := Get(c, seen, q);
      r.Success? && r.value.AllRows?
      && |r.value.rows| == |Matching(c, seen, q)|
      && (forall row :: row in r.value.rows ==> row.seen in seen && row.seen.userId == q.userId && Matches(c, q, row.seen))
      && (forall s :: s in seen && Matches(c, q, s) ==> RowOf(c, q, s) in r.value.rows)
      && Sorted(r.value.rows, LaterOrSame)
  {
    var matching := Matching(c, seen, q);
    var views := RowsOf(c, q, matching);
    var ordered := SortBy(views, LaterOrSame);
    LaterOrSameIsTotalPreorder();
    SortBySorted(views, LaterOrSame);
    forall row | row in ordered
      ensures row.seen in seen && row.seen.userId == q.userId && Matches(c, q, row.seen)
    {
      assert row in multiset(views);
      var i :| 0 <= i < |views| && views[i] == row;
      assert matching[i] in matching;
    }
    forall s | s in seen && Matches(c, q, s)
      ensures RowOf(c, q, s) in ordered
    {
      assert s in matching;
      var i :| 0 <= i < |matching| && matching[i] == s;
      assert views[i] in multiset(ordered);
    }
  }

  /** Undated rows come after every dated row. */
  lemma UndatedLast(rows: seq<SeenRow>, i: int, j: int)
    requires Sorted(rows, LaterOrSame)
    requires 0 <= i < j < |rows| && rows[i].seen.date.None?
    ensures rows[j].seen.date.None?
  {
    assert LaterOrSame(rows[i], rows[j]);
  }

  /**
    Paged, the count is the number of matching rows, the page holds exactly
    the rows `from` to `to` of the newest-first order, and a page that
    starts past the end is the "Invalid page number" error.
   */
  lemma GetPaged(c: Catalog, seen: seq<Seen>, q: SeenQuery)
    requires q.page.Some? && q.page.value != 0
    ensures var r := Get(c, seen, q);
      var ordered := SortBy(RowsOf(c, q, Matching(c, seen, q)), LaterOrSame);
      (r.Failure? <==> ItemsPerPage(q.limit) * (q.page.value - 1) > |Matching(c, seen, q)|)
      && (r.Failure? ==> r.error == "Invalid page number")
      && (r.Success? ==>
            r.value.PageOf? && r.value.paged.total == |Matching(c, seen, q)|
            && 0 <= r.value.paged.from <= r.value.paged.to <= |ordered|
            && r.value.paged.data == ordered[r.value.paged.from..r.value.paged.to]
            && Sorted(r.value.paged.data, LaterOrSame))
  {
    var views := RowsOf(c, q, Matching(c, seen, q));
    var ordered := SortBy(views, LaterOrSame);
    LaterOrSameIsTotalPreorder();
    SortBySorted(views, LaterOrSame);
    var p := Paginate(ordered, q.page.value, ItemsPerPage(q.limit));
    if p.Success? {
      PaginateData(ordered, q.page.value, ItemsPerPage(q.limit));
      var d := p.value.data;
      forall i, j | 0 <= i < j < |d|
        ensures LaterOrSame(d[i], d[j])
      {
        assert d[i] == ordered[p.value.from + i] && d[j] == ordered[p.value.from + j];
      }
    }
  }

  /** In extended form, a row without an episode has no title: the episode's column wins. */
  lemma ExtendedTitleIsEpisodeTitle(c: Catalog, s: Seen)
    ensures Details(c, s).title.Some? <==> JoinedEpisode(c, s).Some?
    ensures JoinedEpisode(c, s).Some? ==> Details(c, s).title == Some(JoinedEpisode(c, s).value.title)
  {
  }
}
