/**
  The stored facts of the media library: media items, seasons, episodes,
  lists, list items and user ratings, plus the JavaScript/SQL value
  conventions (null, truthiness, ISO date strings) that the queries rely on.
 */
module Entities {

  /** Database row identifiers (JavaScript numbers; 0 never names a row but is a falsy input). */
  type Id = int

  datatype Option<+T> = None | Some(value: T)

  /** The outcome of an operation that can throw or reject its input. */
  datatype Result<+T> = Success(value: T) | Failure(error: string)

  /** JavaScript truthiness of a nullable number: null, undefined and 0 are falsy. */
  predicate Truthy(o: Option<int>) {
    o.Some? && o.value != 0
  }

  /** `x || null` on a nullable number. */
  function Norm(o: Option<int>): (r: Option<int>)
    ensures r.Some? <==> Truthy(o)
    ensures r.Some? ==> r == o
  {
    if Truthy(o) then o else None
  }

  /** The number JavaScript uses for a nullable number in arithmetic (`null - 3 == -3`). */
  function Num(o: Option<int>): int {
    if o.Some? then o.value else 0
  }

  /*
    Dates and timestamps are ISO-8601 strings compared as strings. Integers
    stand for them in that order: the date-only string of day d is
    d * DaySpan, the full timestamp of day d at millisecond m is
    d * DaySpan + 1 + m, so a date-only string sorts before every timestamp
    of its own day, exactly as "2022-05-21" < "2022-05-21T10:00:00.000Z".
   */
  const MsPerDay: int := 86400000
  const DaySpan: int := MsPerDay + 1

  function DateOnly(day: int): int {
    day * DaySpan
  }

  function Timestamp(day: int, ms: int): int
    requires 0 <= ms < MsPerDay
  {
    day * DaySpan + 1 + ms
  }

  /** `toISOString().slice(0, 10)`: the date-only string of an instant's day. */
  function DatePrefix(t: int): (r: int)
    ensures r <= t < r + DaySpan
    ensures r % DaySpan == 0
  {
    (t / DaySpan) * DaySpan
  }

  /** A nullable date column: NULL, the empty string, or a date/timestamp string. */
  datatype Date = Null | Blank | At(instant: int)

  /** SQL `d < t`: NULL compares false, '' is below every date string. */
  predicate Before(d: Date, t: int) {
    d.Blank? || (d.At? && d.instant < t)
  }

  /** SQL `d <= t`. */
  predicate AtOrBefore(d: Date, t: int) {
    d.Blank? || (d.At? && d.instant <= t)
  }

  /** SQL `d >= t`. */
  predicate AtOrAfter(d: Date, t: int) {
    d.At? && d.instant >= t
  }

  /** SQL `d BETWEEN lo AND hi` (inclusive). */
  predicate Between(d: Date, lo: int, hi: int) {
    d.At? && lo <= d.instant <= hi
  }

  /** SQL ascending order of a date column: NULL first, then '', then dates. */
  predicate DateLe(a: Date, b: Date) {
    match a
    case Null => true
    case Blank => !b.Null?
    case At(x) => b.At? && x <= b.instant
  }

  datatype MediaType = Tv | Movie | Book | VideoGame | Audiobook

  datatype MediaItem = MediaItem(
    id: Id,
    mediaType: MediaType,
    title: string,
    releaseDate: Date,
    runtime: Option<int>,
    tmdbId: Option<int>)

  datatype Season = Season(
    id: Id,
    tvShowId: Id,
    seasonNumber: int,
    releaseDate: Date,
    isSpecialSeason: bool)

  /** `seasonAndEpisodeNumber` is the stored ordering key of an episode. */
  datatype Episode = Episode(
    id: Id,
    tvShowId: Id,
    seasonId: Option<Id>,
    seasonNumber: int,
    episodeNumber: int,
    seasonAndEpisodeNumber: int,
    title: string,
    releaseDate: Date,
    runtime: Option<int>,
    isSpecialEpisode: bool)

  /** A list-membership row; a null seasonId/episodeId widens it to the show or season. */
  datatype ListItem = ListItem(
    id: Id,
    listId: Id,
    mediaItemId: Id,
    seasonId: Option<Id>,
    episodeId: Option<Id>,
    addedAt: int)

  datatype UserRating = UserRating(
    id: Id,
    userId: Id,
    mediaItemId: Id,
    seasonId: Option<Id>,
    episodeId: Option<Id>,
    rating: Option<int>,
    review: Option<string>,
    date: Option<int>)

  datatype List = List(
    id: Id,
    userId: Id,
    name: string,
    description: Option<string>,
    privacy: string,
    sortBy: string,
    sortOrder: string,
    isWatchlist: bool,
    createdAt: int,
    updatedAt: int)

  /** The read-only part of the fact store. */
  datatype Catalog = Catalog(
    mediaItems: seq<MediaItem>,
    seasons: seq<Season>,
    episodes: seq<Episode>,
    ratings: seq<UserRating>)

  /** The first media item with the given id (what a left join yields when ids are unique). */
  function FindMediaItem(items: seq<MediaItem>, id: Id): (r: Option<MediaItem>)
    ensures r.Some? ==> r.value in items && r.value.id == id
    ensures r.None? ==> forall m :: m in items ==> m.id != id
  {
    if items == [] then None
    else if items[0].id == id then Some(items[0])
    else FindMediaItem(items[1..], id)
  }

  function FindEpisode(episodes: seq<Episode>, id: Id): (r: Option<Episode>)
    ensures r.Some? ==> r.value in episodes && r.value.id == id
    ensures r.None? ==> forall e :: e in episodes ==> e.id != id
  {
    if episodes == [] then None
    else if episodes[0].id == id then Some(episodes[0])
    else FindEpisode(episodes[1..], id)
  }

  function FindSeason(seasons: seq<Season>, id: Id): (r: Option<Season>)
    ensures r.Some? ==> r.value in seasons && r.value.id == id
    ensures r.None? ==> forall s :: s in seasons ==> s.id != id
  {
    if seasons == [] then None
    else if seasons[0].id == id then Some(seasons[0])
    else FindSeason(seasons[1..], id)
  }

  function FindList(lists: seq<List>, id: Id): (r: Option<List>)
    ensures r.Some? ==> r.value in lists && r.value.id == id
    ensures r.None? ==> forall l :: l in lists ==> l.id != id
  {
    if lists == [] then None
    else if lists[0].id == id then Some(lists[0])
    else FindList(lists[1..], id)
  }

  /** The user's watchlist: the first list with that owner and the watchlist flag. */
  function FindWatchlist(lists: seq<List>, userId: Id): (r: Option<List>)
    ensures r.Some? ==> r.value in lists && r.value.userId == userId && r.value.isWatchlist
    ensures r.None? ==> forall l :: l in lists ==> !(l.userId == userId && l.isWatchlist)
  {
    if lists == [] then None
    else if lists[0].userId == userId && lists[0].isWatchlist then Some(lists[0])
    else FindWatchlist(lists[1..], userId)
  }

  /** The runtime of the show an episode belongs to (the `mediaItem` joined on `tvShowId`). */
  function ShowRuntime(items: seq<MediaItem>, showId: Id): Option<int> {
    match FindMediaItem(items, showId)
    case Some(m) => m.runtime
    case None => None
  }

  /** `CASE WHEN episode.runtime IS NOT NULL THEN episode.runtime ELSE mediaItem.runtime END`. */
  function EpisodeRuntime(items: seq<MediaItem>, e: Episode): (r: Option<int>)
    ensures e.runtime.Some? ==> r == e.runtime
    ensures e.runtime.None? ==> r == ShowRuntime(items, e.tvShowId)
  {
    if e.runtime.Some? then e.runtime else ShowRuntime(items, e.tvShowId)
  }

  /** SQL `SUM` over a column: NULLs are skipped; no non-NULL value gives NULL. */
  function SqlSum(values: seq<Option<int>>): (r: Option<int>)
    ensures r.None? <==> forall i :: 0 <= i < |values| ==> values[i].None?
  {
    if values == [] then None
    else
      var rest := SqlSum(values[1..]);
      match values[0]
      case None =>
        assert forall i :: 1 <= i < |values| ==> values[i] == values[1..][i - 1];
        rest
      case Some(v) => Some(v + Num(rest))
  }

  /** `SUM` over a column computed from each row is NULL exactly when every row computes NULL. */
  lemma SqlSumOfColumn<T>(rows: seq<T>, column: T -> Option<int>, values: seq<Option<int>>)
    requires |values| == |rows|
    requires forall i :: 0 <= i < |rows| ==> values[i] == column(rows[i])
    ensures SqlSum(values).None? <==> forall x :: x in rows ==> column(x).None?
  {
    if SqlSum(values).None? {
      forall x | x in rows
        ensures column(x).None?
      {
        var i :| 0 <= i < |rows| && rows[i] == x;
      }
    }
  }

  /** SQL `MAX` over a nullable column. */
  function SqlMax(values: seq<Option<int>>): (r: Option<int>)
    ensures r.None? <==> forall i :: 0 <= i < |values| ==> values[i].None?
    ensures r.Some? ==> exists i :: 0 <= i < |values| && values[i] == r
    ensures r.Some? ==> forall i :: 0 <= i < |values| && values[i].Some? ==> values[i].value <= r.value
  {
    if values == [] then None
    else
      var rest := SqlMax(values[1..]);
      assert forall i :: 1 <= i < |values| ==> values[i] == values[1..][i - 1];
      match values[0]
      case None => rest
      case Some(v) => if rest.Some? && rest.value > v then rest else Some(v)
  }

  /** The rows of a table that satisfy a WHERE condition, in table order. */
  function Filter<T(!new)>(s: seq<T>, p: T -> bool): (r: seq<T>)
    ensures |r| <= |s|
    ensures forall x :: x in r <==> x in s && p(x)
    ensures multiset(r) <= multiset(s)
  {
    if s == [] then []
    else
      assert s == [s[0]] + s[1..];
      if p(s[0]) then [s[0]] + Filter(s[1..], p) else Filter(s[1..], p)
  }
}
