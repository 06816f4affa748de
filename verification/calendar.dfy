/**
  The release calendar (server/src/controllers/calendar.ts): the items of
  a user's lists (the watchlist only, unless all lists are asked for) and
  their episodes released in a date range. The detailed form expands show-
  and season-level list items to their episodes, carries seen flags, drops
  repeated episodes and orders by release date; the simple form enumerates
  each show's episodes and orders by title, season and episode number.
 */
module Calendar {
  import opened Entities
  import opened Sorting
  import opened SeenEntity
  import ListItemsQuery

  /**
    The request: the bounds are the instants of the ISO timestamps
    `parseISO(start).toISOString()` and `parseISO(end).toISOString()`.
   */
  datatype CalendarQuery = CalendarQuery(userId: Id, start: int, end: int, includeAllLists: bool)

  /** A list item's list belongs to the user and, unless all lists are asked for, is the watchlist. */
  predicate OnCalendarList(lists: seq<List>, q: CalendarQuery, li: ListItem) {
    var l := FindList(lists, li.listId);
    l.Some? && l.value.userId == q.userId && (q.includeAllLists || l.value.isWatchlist)
  }

  function CalendarListItems(lists: seq<List>, items: seq<ListItem>, q: CalendarQuery): (r: seq<ListItem>)
    ensures forall li :: li in r <==> li in items && OnCalendarList(lists, q, li)
  {
    Filter(items, (li: ListItem) => OnCalendarList(lists, q, li))
  }

  // ------------------------------------------------------------ detailed form

  /**
    One row of the detailed query: a list item with its media item, its own
    episode, and at most one episode it expands to (of its season or of its
    show), plus the two seen flags the `episodeSeen` and `mediaItemSeen`
    joins produce.
   */
  datatype CalRow = CalRow(
    li: ListItem,
    mediaItem: Option<MediaItem>,
    episode: Option<Episode>,
    seasonEpisode: Option<Episode>,
    showEpisode: Option<Episode>,
    episodeSeen: bool,
    mediaItemSeen: bool)

  /** The user has a seen row for the episode. */
  predicate EpisodeSeenBy(seen: seq<Seen>, userId: Id, episodeId: Id) {
    exists s :: s in seen && s.userId == userId && s.episodeId == Some(episodeId)
  }

  /** The user has a seen row, of any granularity, for the media item. */
  predicate ItemSeenBy(seen: seq<Seen>, userId: Id, mediaItemId: Id) {
    exists s :: s in seen && s.userId == userId && s.mediaItemId == mediaItemId
  }

  predicate ShowLevel(li: ListItem) {
    li.seasonId.None? && li.episodeId.None?
  }

  /** The `mediaItemEpisode` join: the show's episodes, for a show-level list item only. */
  function ShowEpisodesOf(c: Catalog, li: ListItem): (r: seq<Episode>)
    ensures forall e :: e in r <==> ShowLevel(li) && e in c.episodes && e.tvShowId == li.mediaItemId
  {
    if ShowLevel(li) then Filter(c.episodes, (e: Episode) => e.tvShowId == li.mediaItemId) else []
  }

  /** The `seasonEpisode` join: the season's episodes, for a season-level list item only. */
  function SeasonEpisodesOf(c: Catalog, li: ListItem): (r: seq<Episode>)
    ensures forall e :: e in r <==> li.episodeId.None? && li.seasonId.Some? && e in c.episodes && e.seasonId == li.seasonId
  {
    if li.episodeId.None? && li.seasonId.Some? then Filter(c.episodes, (e: Episode) => e.seasonId == li.seasonId) else []
  }

  /** At most one of the three episode joins matches in a row. */
  predicate AtMostOneEpisode(row: CalRow) {
    (row.episode.Some? ==> row.seasonEpisode.None? && row.showEpisode.None?)
    && (row.seasonEpisode.Some? ==> row.showEpisode.None?)
  }

  /**
    The rows of one list item: one per episode it expands to, else a single
    row (a left join that matches nothing still yields its row).
   */
  function Expand(c: Catalog, seen: seq<Seen>, userId: Id, li: ListItem): (r: seq<CalRow>)
    ensures forall row :: row in r ==> row.li == li && AtMostOneEpisode(row)
    ensures forall row :: row in r ==> (row.mediaItemSeen <==> ShowLevel(li) && ItemSeenBy(seen, userId, li.mediaItemId))
    ensures forall row :: row in r ==>
      (row.episodeSeen <==>
        (row.showEpisode.Some? && EpisodeSeenBy(seen, userId, row.showEpisode.value.id))
        || (row.seasonEpisode.Some? && EpisodeSeenBy(seen, userId, row.seasonEpisode.value.id))
        || (row.showEpisode.None? && row.seasonEpisode.None?
            && li.episodeId.Some? && EpisodeSeenBy(seen, userId, li.episodeId.value)))
  {
    var m := FindMediaItem(c.mediaItems, li.mediaItemId);
    var itemSeen := ShowLevel(li) && ItemSeenBy(seen, userId, li.mediaItemId);
    var showEpisodes := ShowEpisodesOf(c, li);
    var seasonEpisodes := SeasonEpisodesOf(c, li);
    if showEpisodes != [] then
      seq(|showEpisodes|, i requires 0 <= i < |showEpisodes| =>
        CalRow(li, m, None, None, Some(showEpisodes[i]), EpisodeSeenBy(seen, userId, showEpisodes[i].id), itemSeen))
    else if seasonEpisodes != [] then
      seq(|seasonEpisodes|, i requires 0 <= i < |seasonEpisodes| =>
        CalRow(li, m, None, Some(seasonEpisodes[i]), None, EpisodeSeenBy(seen, userId, seasonEpisodes[i].id), itemSeen))
    else
      var episode := if li.episodeId.Some? then FindEpisode(c.episodes, li.episodeId.value) else None;
      [CalRow(li, m, episode, None, None, li.episodeId.Some? && EpisodeSeenBy(seen, userId, li.episodeId.value), itemSeen)]
  }

  /** The joined rows of the list items, item by item. */
  function Rows(c: Catalog, seen: seq<Seen>, userId: Id, items: seq<ListItem>): (r: seq<CalRow>)
    ensures forall row :: row in r ==> row.li in items && row in Expand(c, seen, userId, row.li)
    decreases |items|
  {
    if items == [] then []
    else Expand(c, seen, userId, items[0]) + Rows(c, seen, userId, items[1..])
  }

  lemma {:induction false} RowsCover(c: Catalog, seen: seq<Seen>, userId: Id, items: seq<ListItem>, li: ListItem, row: CalRow)
    requires li in items && row in Expand(c, seen, userId, li)
    ensures row in Rows(c, seen, userId, items)
  {
    if items[0] != li {
      assert li in items[1..];
      RowsCover(c, seen, userId, items[1..], li, row);
    }
  }

  /** The WHERE clause on dates: a non-tv item released in range, or a joined episode released in range. */
  predicate InRange(row: CalRow, lo: int, hi: int) {
    (row.mediaItem.Some? && row.mediaItem.value.mediaType != Tv && Between(row.mediaItem.value.releaseDate, lo, hi))
    || (row.episode.Some? && Between(row.episode.value.releaseDate, lo, hi))
    || (row.seasonEpisode.Some? && Between(row.seasonEpisode.value.releaseDate, lo, hi))
    || (row.showEpisode.Some? && Between(row.showEpisode.value.releaseDate, lo, hi))
  }

  datatype CalEpisode = CalEpisode(
    id: Id,
    title: string,
    episodeNumber: int,
    seasonNumber: int,
    releaseDate: Date,
    seen: bool,
    isSpecialEpisode: bool)

  datatype CalMediaItem = CalMediaItem(
    id: Id,
    title: Option<string>,
    releaseDate: Date,
    mediaType: Option<MediaType>,
    tmdbId: Option<int>,
    seen: bool)

  datatype CalendarItem = CalendarItem(releaseDate: Date, mediaItem: CalMediaItem, episode: Option<CalEpisode>)

  function CalEp(e: Episode, seen: bool): CalEpisode {
    CalEpisode(e.id, e.title, e.episodeNumber, e.seasonNumber, e.releaseDate, seen, e.isSpecialEpisode)
  }

  /**
    The `episode` of an entry: each joined episode whose release date is a
    non-empty string overrides the one before it, in the order own episode,
    show episode, season episode.
   */
  function ChosenEpisode(row: CalRow): (r: Option<CalEpisode>)
    ensures r.Some? ==> r.value.releaseDate.At? && r.value.seen == row.episodeSeen
    ensures r.None? ==>
      !(row.episode.Some? && row.episode.value.releaseDate.At?)
      && !(row.seasonEpisode.Some? && row.seasonEpisode.value.releaseDate.At?)
      && !(row.showEpisode.Some? && row.showEpisode.value.releaseDate.At?)
  {
    var fromEpisode := if row.episode.Some? && row.episode.value.releaseDate.At? then Some(CalEp(row.episode.value, row.episodeSeen)) else None;
    var fromShow := if row.showEpisode.Some? && row.showEpisode.value.releaseDate.At? then Some(CalEp(row.showEpisode.value, row.episodeSeen)) else fromEpisode;
    if row.seasonEpisode.Some? && row.seasonEpisode.value.releaseDate.At? then Some(CalEp(row.seasonEpisode.value, row.episodeSeen)) else fromShow
  }

  /** The single joined episode of a row chosen as its entry's episode. */
  lemma ChosenIsTheJoinedEpisode(row: CalRow)
    requires AtMostOneEpisode(row)
    ensures row.episode.Some? && row.episode.value.releaseDate.At? ==> ChosenEpisode(row) == Some(CalEp(row.episode.value, row.episodeSeen))
    ensures row.seasonEpisode.Some? && row.seasonEpisode.value.releaseDate.At? ==> ChosenEpisode(row) == Some(CalEp(row.seasonEpisode.value, row.episodeSeen))
    ensures row.showEpisode.Some? && row.showEpisode.value.releaseDate.At? ==> ChosenEpisode(row) == Some(CalEp(row.showEpisode.value, row.episodeSeen))
  {
  }

  function ItemOf(row: CalRow): CalMediaItem {
    var m := row.mediaItem;
    CalMediaItem(
      row.li.mediaItemId,
      if m.Some? then Some(m.value.title) else None,
      if m.Some? then m.value.releaseDate else Null,
      if m.Some? then Some(m.value.mediaType) else None,
      if m.Some? then m.value.tmdbId else None,
      row.mediaItemSeen)
  }

  /** An entry's release date is its episode's when it has one, else its media item's. */
  function ToEntry(row: CalRow): (x: CalendarItem)
    ensures x.episode.Some? ==> x.releaseDate == x.episode.value.releaseDate
    ensures x.episode.None? ==> x.releaseDate == x.mediaItem.releaseDate
  {
    var episode := ChosenEpisode(row);
    var item := ItemOf(row);
    CalendarItem(if episode.Some? then episode.value.releaseDate else item.releaseDate, item, episode)
  }

  function Entries(rows: seq<CalRow>): (r: seq<CalendarItem>)
    ensures |r| == |rows|
    ensures forall i :: 0 <= i < |r| ==> r[i] == ToEntry(rows[i])
  {
    seq(|rows|, i requires 0 <= i < |rows| => ToEntry(rows[i]))
  }

  /**
    `_.uniqBy` as lodash runs it: one pass that keeps an element when its
    key has not been seen yet and then marks the key as seen.
   */
  function UniqByFrom<T, K(==)>(s: seq<T>, key: T -> K, seen: set<K>): (r: seq<T>)
    ensures forall x :: x in r ==> x in s && key(x) !in seen
  {
    if s == [] then []
    else if key(s[0]) in seen then UniqByFrom(s[1..], key, seen)
    else [s[0]] + UniqByFrom(s[1..], key, seen + {key(s[0])})
  }

  /** `_.uniqBy`: the first element of each key, in order. */
  function UniqBy<T, K(==)>(s: seq<T>, key: T -> K): (r: seq<T>)
    ensures forall x :: x in r ==> x in s
  {
    UniqByFrom(s, key, {})
  }

  /** `r` is `s` with some elements left out, the rest in their order. */
  predicate SubseqOf<T(==)>(r: seq<T>, s: seq<T>)
    decreases |s|
  {
    if s == [] then r == []
    else SubseqOf(r, s[1..]) || (r != [] && r[0] == s[0] && SubseqOf(r[1..], s[1..]))
  }

  /** Index `i` holds the first element of `s` with its key. */
  predicate FirstOfItsKey<T, K(==)>(s: seq<T>, key: T -> K, i: int) {
    0 <= i < |s| && forall j :: 0 <= j < i ==> key(s[j]) != key(s[i])
  }

  lemma {:induction false} UniqByFromDistinct<T, K>(s: seq<T>, key: T -> K, seen: set<K>)
    ensures forall i, j :: 0 <= i < j < |UniqByFrom(s, key, seen)| ==>
      key(UniqByFrom(s, key, seen)[i]) != key(UniqByFrom(s, key, seen)[j])
  {
    if s != [] {
      if key(s[0]) in seen {
        assert UniqByFrom(s, key, seen) == UniqByFrom(s[1..], key, seen);
        UniqByFromDistinct(s[1..], key, seen);
      } else {
        var rest := UniqByFrom(s[1..], key, seen + {key(s[0])});
        UniqByFromDistinct(s[1..], key, seen + {key(s[0])});
        var r := [s[0]] + rest;
        assert UniqByFrom(s, key, seen) == r;
        forall i, j | 0 <= i < j < |r|
          ensures key(r[i]) != key(r[j])
        {
          assert r[j] == rest[j - 1];
          if i > 0 {
            assert r[i] == rest[i - 1];
          } else {
            assert r[0] == s[0] && rest[j - 1] in rest;
          }
        }
      }
    }
  }

  /** `_.uniqBy` keeps one element per key. */
  lemma UniqByDistinct<T, K>(s: seq<T>, key: T -> K)
    ensures forall i, j :: 0 <= i < j < |UniqBy(s, key)| ==> key(UniqBy(s, key)[i]) != key(UniqBy(s, key)[j])
  {
    UniqByFromDistinct(s, key, {});
  }

  /** Every element whose first occurrence comes before any seen key is kept. */
  lemma {:induction false} UniqByFromKeepsFirst<T, K>(s: seq<T>, key: T -> K, seen: set<K>, i: int)
    requires FirstOfItsKey(s, key, i) && key(s[i]) !in seen
    ensures s[i] in UniqByFrom(s, key, seen)
  {
    if i == 0 {
      assert UniqByFrom(s, key, seen)[0] == s[0];
    } else {
      assert key(s[0]) != key(s[i]);
      var seen' := if key(s[0]) in seen then seen else seen + {key(s[0])};
      assert s[1..][i - 1] == s[i];
      forall j | 0 <= j < i - 1
        ensures key(s[1..][j]) != key(s[1..][i - 1])
      {
        assert s[1..][j] == s[j + 1];
      }
      UniqByFromKeepsFirst(s[1..], key, seen', i - 1);
    }
  }

  /** Every kept element is the first of its key in the input. */
  lemma {:induction false} UniqByFromOnlyFirst<T, K>(s: seq<T>, key: T -> K, seen: set<K>, y: T)
    requires y in UniqByFrom(s, key, seen)
    ensures exists i :: FirstOfItsKey(s, key, i) && s[i] == y
  {
    var seen' := if key(s[0]) in seen then seen else seen + {key(s[0])};
    var rest := UniqByFrom(s[1..], key, seen');
    if key(s[0]) !in seen && y == s[0] {
      assert FirstOfItsKey(s, key, 0);
    } else {
      assert y in rest;
      assert key(y) !in seen';
      UniqByFromOnlyFirst(s[1..], key, seen', y);
      var i :| FirstOfItsKey(s[1..], key, i) && s[1..][i] == y;
      forall j | 0 <= j < i + 1
        ensures key(s[j]) != key(s[i + 1])
      {
        if j > 0 {
          assert s[j] == s[1..][j - 1];
        }
      }
      assert FirstOfItsKey(s, key, i + 1);
    }
  }

  lemma {:induction false} UniqByFromSubseq<T, K>(s: seq<T>, key: T -> K, seen: set<K>)
    ensures SubseqOf(UniqByFrom(s, key, seen), s)
  {
    if s != [] {
      var seen' := if key(s[0]) in seen then seen else seen + {key(s[0])};
      UniqByFromSubseq(s[1..], key, seen');
      if key(s[0]) !in seen {
        var r := UniqByFrom(s, key, seen);
        assert r[1..] == UniqByFrom(s[1..], key, seen');
      }
    }
  }

  /** `_.uniqBy` keeps the kept elements in their input order. */
  lemma UniqBySubseq<T, K>(s: seq<T>, key: T -> K)
    ensures SubseqOf(UniqBy(s, key), s)
  {
    UniqByFromSubseq(s, key, {});
  }

  /** Every key of the input has a first occurrence. */
  lemma {:induction false} FirstOccurrence<T, K>(s: seq<T>, key: T -> K, x: T)
    requires x in s
    ensures exists i :: FirstOfItsKey(s, key, i) && key(s[i]) == key(x)
  {
    if key(s[0]) == key(x) {
      assert FirstOfItsKey(s, key, 0);
    } else {
      assert x in s[1..];
      FirstOccurrence(s[1..], key, x);
      var i :| FirstOfItsKey(s[1..], key, i) && key(s[1..][i]) == key(x);
      forall j | 0 <= j < i + 1
        ensures key(s[j]) != key(s[i + 1])
      {
        if j > 0 {
          assert s[j] == s[1..][j - 1];
        }
      }
      assert FirstOfItsKey(s, key, i + 1);
    }
  }

  /** The first element of each key is kept, and it is the only kept element with that key. */
  lemma UniqByFirstAt<T, K>(s: seq<T>, key: T -> K, i: int)
    requires FirstOfItsKey(s, key, i)
    ensures s[i] in UniqBy(s, key)
    ensures forall y :: y in UniqBy(s, key) && key(y) == key(s[i]) ==> y == s[i]
  {
    UniqByFromKeepsFirst(s, key, {}, i);
    forall y | y in UniqBy(s, key) && key(y) == key(s[i])
      ensures y == s[i]
    {
      UniqByFromOnlyFirst(s, key, {}, y);
      var k :| FirstOfItsKey(s, key, k) && s[k] == y;
      assert k == i;
    }
  }

  /**
    For every key of the input, `_.uniqBy` keeps exactly the first element
    of the input with that key.
   */
  lemma UniqByKeepsFirst<T, K>(s: seq<T>, key: T -> K, x: T)
    requires x in s
    ensures exists i :: (FirstOfItsKey(s, key, i) && key(s[i]) == key(x) && s[i] in UniqBy(s, key)
      && forall y :: y in UniqBy(s, key) && key(y) == key(x) ==> y == s[i])
  {
    FirstOccurrence(s, key, x);
    var i :| FirstOfItsKey(s, key, i) && key(s[i]) == key(x);
    UniqByFirstAt(s, key, i);
  }

  /** `_.uniqBy` drops no key. */
  lemma UniqByCovers<T, K>(s: seq<T>, key: T -> K, x: T)
    requires x in s
    ensures exists y :: y in UniqBy(s, key) && key(y) == key(x)
  {
    UniqByKeepsFirst(s, key, x);
  }

  function EpisodeKey(x: CalendarItem): Option<Id> {
    if x.episode.Some? then Some(x.episode.value.id) else None
  }

  /** lodash's ascending order of release-date strings: '' first, null last. */
  predicate LodashDateLe(a: Date, b: Date) {
    match a
    case Null => b.Null?
    case Blank => true
    case At(x) => b.Null? || (b.At? && x <= b.instant)
  }

  function SortKey(e: CalEpisode): int {
    e.seasonNumber * 1000 + e.episodeNumber
  }

  /**
    The first `orderBy`: episodes by `seasonNumber * 1000 + episodeNumber`,
    other entries by release date. lodash finds a number neither below nor
    above a string, so such a pair keeps its input order, in which every
    episode entry comes first.
   */
  predicate FirstOrderLe(a: CalendarItem, b: CalendarItem) {
    if a.episode.Some? && b.episode.Some? then SortKey(a.episode.value) <= SortKey(b.episode.value)
    else if a.episode.Some? || b.episode.Some? then a.episode.Some?
    else LodashDateLe(a.releaseDate, b.releaseDate)
  }

  /** The second `orderBy('releaseDate')`. */
  predicate ReleaseLe(a: CalendarItem, b: CalendarItem) {
    LodashDateLe(a.releaseDate, b.releaseDate)
  }

  lemma LodashDateLeTotalPreorder()
    ensures forall a: Date, b: Date :: LodashDateLe(a, b) || LodashDateLe(b, a)
    ensures forall a: Date, b: Date, c: Date :: LodashDateLe(a, b) && LodashDateLe(b, c) ==> LodashDateLe(a, c)
  {
  }

  lemma OrdersAreTotalPreorders()
    ensures TotalPreorder(FirstOrderLe)
    ensures TotalPreorder(ReleaseLe)
  {
    LodashDateLeTotalPreorder();
  }

  /** The rows the detailed query returns: those of calendar list items, released in range. */
  function DetailedRows(c: Catalog, seen: seq<Seen>, lists: seq<List>, items: seq<ListItem>, q: CalendarQuery): (r: seq<CalRow>)
    ensures forall row :: row in r ==>
      row.li in items && OnCalendarList(lists, q, row.li) && row in Expand(c, seen, q.userId, row.li)
      && InRange(row, DatePrefix(q.start), DatePrefix(q.end))
  {
    var lo := DatePrefix(q.start);
    var hi := DatePrefix(q.end);
    Filter(Rows(c, seen, q.userId, CalendarListItems(lists, items, q)), (row: CalRow) => InRange(row, lo, hi))
  }

  predicate IsEpisode(x: CalendarItem) {
    x.episode.Some?
  }

  /** The episode entries made unique by episode id, followed by the other entries. */
  function MergeEntries(entries: seq<CalendarItem>): (r: seq<CalendarItem>)
    ensures forall x :: x in r ==> x in entries
  {
    UniqBy(Filter(entries, IsEpisode), EpisodeKey) + Filter(entries, (x: CalendarItem) => !IsEpisode(x))
  }

  /** No episode id is merged twice. */
  lemma MergeEntriesDistinct(entries: seq<CalendarItem>)
    ensures DistinctAmong(MergeEntries(entries), EpisodeKey, IsEpisode)
  {
    var episodes := UniqBy(Filter(entries, IsEpisode), EpisodeKey);
    var others := Filter(entries, (x: CalendarItem) => !IsEpisode(x));
    var merged := MergeEntries(entries);
    UniqByDistinct(Filter(entries, IsEpisode), EpisodeKey);
    forall i, j | 0 <= i < j < |merged| && IsEpisode(merged[i]) && IsEpisode(merged[j])
      ensures EpisodeKey(merged[i]) != EpisodeKey(merged[j])
    {
      if j < |episodes| {
        assert merged[i] == episodes[i] && merged[j] == episodes[j];
      }
    }
  }

  /** Every episode entry is represented in the merge by an entry of the same episode. */
  lemma MergeEntriesCovers(entries: seq<CalendarItem>, x: CalendarItem)
    requires x in entries && IsEpisode(x)
    ensures exists y :: y in MergeEntries(entries) && EpisodeKey(y) == EpisodeKey(x)
  {
    UniqByCovers(Filter(entries, IsEpisode), EpisodeKey, x);
    var y :| y in UniqBy(Filter(entries, IsEpisode), EpisodeKey) && EpisodeKey(y) == EpisodeKey(x);
    assert y in MergeEntries(entries);
  }

  /** The episode entries of the merge are those `_.uniqBy` kept. */
  lemma MergedEpisodeIsUnique(entries: seq<CalendarItem>, y: CalendarItem)
    requires y in MergeEntries(entries) && IsEpisode(y)
    ensures y in UniqBy(Filter(entries, IsEpisode), EpisodeKey)
  {
    assert y !in Filter(entries, (z: CalendarItem) => !IsEpisode(z));
  }

  /**
    Of several entries of one episode, the merge keeps the first: the one
    whose seen flags the calendar shows.
   */
  lemma MergeEntriesKeepsFirst(entries: seq<CalendarItem>, i: int)
    requires FirstOfItsKey(Filter(entries, IsEpisode), EpisodeKey, i)
    ensures var first := Filter(entries, IsEpisode)[i];
      first in MergeEntries(entries)
      && forall y :: y in MergeEntries(entries) && EpisodeKey(y) == EpisodeKey(first) ==> y == first
  {
    var episodes := Filter(entries, IsEpisode);
    UniqByFirstAt(episodes, EpisodeKey, i);
    forall y | y in MergeEntries(entries) && EpisodeKey(y) == EpisodeKey(episodes[i])
      ensures y == episodes[i]
    {
      assert episodes[i] in episodes;
      MergedEpisodeIsUnique(entries, y);
    }
  }

  /** Every entry that is not an episode survives the merge. */
  lemma MergeEntriesKeepsOthers(entries: seq<CalendarItem>, x: CalendarItem)
    requires x in entries && !IsEpisode(x)
    ensures x in MergeEntries(entries)
  {
    assert x in Filter(entries, (z: CalendarItem) => !IsEpisode(z));
  }

  function Merged(c: Catalog, seen: seq<Seen>, lists: seq<List>, items: seq<ListItem>, q: CalendarQuery): seq<CalendarItem> {
    MergeEntries(Entries(DetailedRows(c, seen, lists, items, q)))
  }

  /** `getCalendarItems`: the bounds cut to their date-only prefix, entries ordered twice. */
  function Detailed(c: Catalog, seen: seq<Seen>, lists: seq<List>, items: seq<ListItem>, q: CalendarQuery): (r: seq<CalendarItem>)
    ensures multiset(r) == multiset(Merged(c, seen, lists, items, q))
  {
    SortBy(SortBy(Merged(c, seen, lists, items, q), FirstOrderLe), ReleaseLe)
  }

  /** Sorting twice keeps exactly the elements. */
  lemma SortedTwiceMembers<T>(s: seq<T>, le1: (T, T) -> bool, le2: (T, T) -> bool, x: T)
    ensures x in SortBy(SortBy(s, le1), le2) <==> x in s
  {
    var first := SortBy(s, le1);
    var r := SortBy(first, le2);
    assert x in r <==> x in multiset(r);
    assert x in first <==> x in multiset(first);
    assert x in s <==> x in multiset(s);
  }

  /**
    The detailed calendar is ordered by release date, and entries of equal
    release date that are both episodes are ordered by season and episode
    number.
   */
  lemma DetailedOrder(c: Catalog, seen: seq<Seen>, lists: seq<List>, items: seq<ListItem>, q: CalendarQuery)
    ensures var r := Detailed(c, seen, lists, items, q);
      Sorted(r, ReleaseLe)
      && forall i, j :: 0 <= i < j < |r| && r[i].episode.Some? && r[j].episode.Some? && r[i].releaseDate == r[j].releaseDate
           ==> SortKey(r[i].episode.value) <= SortKey(r[j].episode.value)
  {
    var first := SortBy(Merged(c, seen, lists, items, q), FirstOrderLe);
    var r := SortBy(first, ReleaseLe);
    OrdersAreTotalPreorders();
    SortBySorted(first, ReleaseLe);
    SortBySorted(Merged(c, seen, lists, items, q), FirstOrderLe);
    assert TiesOrdered(first, ReleaseLe, FirstOrderLe);
    SortByTies(first, ReleaseLe, FirstOrderLe);
    forall i, j | 0 <= i < j < |r| && r[i].episode.Some? && r[j].episode.Some? && r[i].releaseDate == r[j].releaseDate
      ensures SortKey(r[i].episode.value) <= SortKey(r[j].episode.value)
    {
      assert ReleaseLe(r[j], r[i]);
    }
  }

  /** No episode occurs twice in the detailed calendar. */
  lemma DetailedNoRepeatedEpisode(c: Catalog, seen: seq<Seen>, lists: seq<List>, items: seq<ListItem>, q: CalendarQuery)
    ensures var r := Detailed(c, seen, lists, items, q);
      forall i, j :: 0 <= i < j < |r| && r[i].episode.Some? && r[j].episode.Some? ==> r[i].episode.value.id != r[j].episode.value.id
  {
    var merged := Merged(c, seen, lists, items, q);
    MergeEntriesDistinct(Entries(DetailedRows(c, seen, lists, items, q)));
    var first := SortBy(merged, FirstOrderLe);
    var r := SortBy(first, ReleaseLe);
    PermutationKeepsDistinct(merged, first, EpisodeKey, IsEpisode);
    PermutationKeepsDistinct(first, r, EpisodeKey, IsEpisode);
    forall i, j | 0 <= i < j < |r| && r[i].episode.Some? && r[j].episode.Some?
      ensures r[i].episode.value.id != r[j].episode.value.id
    {
      assert IsEpisode(r[i]) && IsEpisode(r[j]);
      assert EpisodeKey(r[i]) != EpisodeKey(r[j]);
    }
  }

  /** An entry of the detailed calendar is the entry of a row in range of a calendar list item. */
  lemma DetailedEntryOrigin(c: Catalog, seen: seq<Seen>, lists: seq<List>, items: seq<ListItem>, q: CalendarQuery, x: CalendarItem)
    requires x in Detailed(c, seen, lists, items, q)
    ensures exists row :: row in DetailedRows(c, seen, lists, items, q) && x == ToEntry(row)
  {
    var rows := DetailedRows(c, seen, lists, items, q);
    var entries := Entries(rows);
    SortedTwiceMembers(Merged(c, seen, lists, items, q), FirstOrderLe, ReleaseLe, x);
    assert x in entries;
    var i :| 0 <= i < |entries| && entries[i] == x;
    assert rows[i] in rows;
  }

  /**
    Every entry is in range: an entry without an episode is a non-tv item
    released in range; an episode entry is released in range unless its
    item is a non-tv item released in range.
   */
  lemma DetailedEntriesInRange(c: Catalog, seen: seq<Seen>, lists: seq<List>, items: seq<ListItem>, q: CalendarQuery, x: CalendarItem)
    requires x in Detailed(c, seen, lists, items, q)
    ensures x.episode.None? ==>
      x.releaseDate == x.mediaItem.releaseDate && x.mediaItem.mediaType.Some? && x.mediaItem.mediaType != Some(Tv)
      && Between(x.releaseDate, DatePrefix(q.start), DatePrefix(q.end))
    ensures x.episode.Some? ==>
      x.releaseDate == x.episode.value.releaseDate
      && (Between(x.releaseDate, DatePrefix(q.start), DatePrefix(q.end))
          || (x.mediaItem.mediaType.Some? && x.mediaItem.mediaType != Some(Tv)
              && Between(x.mediaItem.releaseDate, DatePrefix(q.start), DatePrefix(q.end))))
  {
    DetailedEntryOrigin(c, seen, lists, items, q, x);
    var row :| row in DetailedRows(c, seen, lists, items, q) && x == ToEntry(row);
    ChosenIsTheJoinedEpisode(row);
  }

  /** The media-item seen flag is only ever set through a show-level list item the user has seen. */
  lemma ItemSeenOnlyShowLevel(c: Catalog, seen: seq<Seen>, lists: seq<List>, items: seq<ListItem>, q: CalendarQuery, x: CalendarItem)
    requires x in Detailed(c, seen, lists, items, q) && x.mediaItem.seen
    ensures exists li :: (li in items && OnCalendarList(lists, q, li) && ShowLevel(li)
      && li.mediaItemId == x.mediaItem.id && ItemSeenBy(seen, q.userId, li.mediaItemId))
  {
    DetailedEntryOrigin(c, seen, lists, items, q, x);
    var row :| row in DetailedRows(c, seen, lists, items, q) && x == ToEntry(row);
    assert row.li in items;
  }

  /** A show- or season-level list item has a row for each episode it expands to. */
  lemma ExpansionRow(c: Catalog, seen: seq<Seen>, userId: Id, li: ListItem, e: Episode)
    requires e in ShowEpisodesOf(c, li) || e in SeasonEpisodesOf(c, li)
    ensures exists row :: row in Expand(c, seen, userId, li) && (row.showEpisode == Some(e) || row.seasonEpisode == Some(e))
  {
    var expanded := Expand(c, seen, userId, li);
    var showEpisodes := ShowEpisodesOf(c, li);
    var seasonEpisodes := SeasonEpisodesOf(c, li);
    if e in showEpisodes {
      var k :| 0 <= k < |showEpisodes| && showEpisodes[k] == e;
      assert expanded[k] in expanded;
    } else {
      assert showEpisodes == [];
      var k :| 0 <= k < |seasonEpisodes| && seasonEpisodes[k] == e;
      assert expanded[k] in expanded;
    }
  }

  /** A row in range of a calendar list item has its entry among the merged entries' episode keys. */
  lemma RowEntryMerged(c: Catalog, seen: seq<Seen>, lists: seq<List>, items: seq<ListItem>, q: CalendarQuery, row: CalRow)
    requires row in DetailedRows(c, seen, lists, items, q)
    requires IsEpisode(ToEntry(row))
    ensures exists y :: y in Detailed(c, seen, lists, items, q) && EpisodeKey(y) == EpisodeKey(ToEntry(row))
  {
    var rows := DetailedRows(c, seen, lists, items, q);
    var entries := Entries(rows);
    var i :| 0 <= i < |rows| && rows[i] == row;
    assert entries[i] in entries;
    MergeEntriesCovers(entries, entries[i]);
    var y :| y in Merged(c, seen, lists, items, q) && EpisodeKey(y) == EpisodeKey(entries[i]);
    SortedTwiceMembers(Merged(c, seen, lists, items, q), FirstOrderLe, ReleaseLe, y);
  }

  /** A detailed row whose entry is not an episode (a movie, a book, a game) is on the calendar as it is. */
  lemma NonEpisodeRowListed(c: Catalog, seen: seq<Seen>, lists: seq<List>, items: seq<ListItem>, q: CalendarQuery, row: CalRow)
    requires row in DetailedRows(c, seen, lists, items, q)
    requires !IsEpisode(ToEntry(row))
    ensures ToEntry(row) in Detailed(c, seen, lists, items, q)
  {
    var rows := DetailedRows(c, seen, lists, items, q);
    var entries := Entries(rows);
    var i :| 0 <= i < |rows| && rows[i] == row;
    assert entries[i] in entries;
    MergeEntriesKeepsOthers(entries, entries[i]);
    SortedTwiceMembers(Merged(c, seen, lists, items, q), FirstOrderLe, ReleaseLe, ToEntry(row));
  }

  /** An expansion row in range of a calendar list item is a detailed row. */
  lemma ExpandedRowSelected(c: Catalog, seen: seq<Seen>, lists: seq<List>, items: seq<ListItem>, q: CalendarQuery, li: ListItem, row: CalRow)
    requires li in items && OnCalendarList(lists, q, li)
    requires row in Expand(c, seen, q.userId, li)
    requires InRange(row, DatePrefix(q.start), DatePrefix(q.end))
    ensures row in DetailedRows(c, seen, lists, items, q)
  {
    var considered := CalendarListItems(lists, items, q);
    RowsCover(c, seen, q.userId, considered, li, row);
  }

  /** A row joined to a dated episode becomes an entry of that episode. */
  lemma JoinedEpisodeEntry(row: CalRow, e: Episode)
    requires AtMostOneEpisode(row)
    requires row.showEpisode == Some(e) || row.seasonEpisode == Some(e)
    requires e.releaseDate.At?
    ensures IsEpisode(ToEntry(row)) && EpisodeKey(ToEntry(row)) == Some(e.id)
  {
    ChosenIsTheJoinedEpisode(row);
  }

  /**
    Every episode a show- or season-level calendar list item expands to
    and that is released in range is on the detailed calendar.
   */
  lemma ExpandedEpisodeListed(c: Catalog, seen: seq<Seen>, lists: seq<List>, items: seq<ListItem>, q: CalendarQuery, li: ListItem, e: Episode)
    requires li in items && OnCalendarList(lists, q, li)
    requires e in ShowEpisodesOf(c, li) || e in SeasonEpisodesOf(c, li)
    requires Between(e.releaseDate, DatePrefix(q.start), DatePrefix(q.end))
    ensures exists x :: x in Detailed(c, seen, lists, items, q) && x.episode.Some? && x.episode.value.id == e.id
  {
    ExpansionRow(c, seen, q.userId, li, e);
    var row :| row in Expand(c, seen, q.userId, li) && (row.showEpisode == Some(e) || row.seasonEpisode == Some(e));
    ExpandedRowSelected(c, seen, lists, items, q, li, row);
    JoinedEpisodeEntry(row, e);
    RowEntryMerged(c, seen, lists, items, q, row);
  }

  // ------------------------------------------------------------ simple form

  datatype SimpleRow = SimpleRow(mediaItem: Option<MediaItem>, episode: Option<Episode>)

  /** The simple query's rows of one list item: its media item joined with every episode of that show. */
  function SimpleExpand(c: Catalog, li: ListItem): (r: seq<SimpleRow>)
    ensures forall row :: row in r ==> row.mediaItem == FindMediaItem(c.mediaItems, li.mediaItemId)
    ensures forall row :: row in r && row.episode.Some? ==>
      row.mediaItem.Some? && row.episode.value in c.episodes && row.episode.value.tvShowId == row.mediaItem.value.id
  {
    var m := FindMediaItem(c.mediaItems, li.mediaItemId);
    var episodes := if m.Some? then Filter(c.episodes, (e: Episode) => e.tvShowId == m.value.id) else [];
    if episodes == [] then [SimpleRow(m, None)]
    else seq(|episodes|, i requires 0 <= i < |episodes| => SimpleRow(m, Some(episodes[i])))
  }

  function SimpleRows(c: Catalog, items: seq<ListItem>): (r: seq<SimpleRow>)
    ensures forall row :: row in r ==> exists li :: li in items && row in SimpleExpand(c, li)
    decreases |items|
  {
    if items == [] then []
    else
      var rest := SimpleRows(c, items[1..]);
      assert forall li :: li in items[1..] ==> li in items;
      SimpleExpand(c, items[0]) + rest
  }

  predicate SimpleInRange(row: SimpleRow, lo: int, hi: int) {
    (row.mediaItem.Some? && row.mediaItem.value.mediaType != Tv && Between(row.mediaItem.value.releaseDate, lo, hi))
    || (row.episode.Some? && Between(row.episode.value.releaseDate, lo, hi))
  }

  /** `GROUP BY mediaItem.id, episode.id`. */
  datatype GroupKey = GroupKey(mediaItemId: Option<Id>, episodeId: Option<Id>)

  function GroupOf(row: SimpleRow): GroupKey {
    GroupKey(if row.mediaItem.Some? then Some(row.mediaItem.value.id) else None,
             if row.episode.Some? then Some(row.episode.value.id) else None)
  }

  /** SQL ascending order of a nullable number: NULL first. */
  predicate NumLe(a: Option<int>, b: Option<int>) {
    a.None? || (b.Some? && a.value <= b.value)
  }

  function TitleOf(row: SimpleRow): Option<string> {
    if row.mediaItem.Some? then Some(row.mediaItem.value.title) else None
  }

  function SeasonNumberOf(row: SimpleRow): Option<int> {
    if row.episode.Some? then Some(row.episode.value.seasonNumber) else None
  }

  function EpisodeNumberOf(row: SimpleRow): Option<int> {
    if row.episode.Some? then Some(row.episode.value.episodeNumber) else None
  }

  /** `ORDER BY mediaItem.title, episode.seasonNumber, episode.episodeNumber`. */
  predicate SimpleLe(a: SimpleRow, b: SimpleRow) {
    ListItemsQuery.TitleLe(TitleOf(a), TitleOf(b))
    && (ListItemsQuery.TitleLe(TitleOf(b), TitleOf(a)) ==>
          NumLe(SeasonNumberOf(a), SeasonNumberOf(b))
          && (NumLe(SeasonNumberOf(b), SeasonNumberOf(a)) ==> NumLe(EpisodeNumberOf(a), EpisodeNumberOf(b))))
  }

  lemma SimpleLeTotalPreorder()
    ensures TotalPreorder(SimpleLe)
  {
    forall a, b
      ensures SimpleLe(a, b) || SimpleLe(b, a)
    {
      ListItemsQuery.TitleLeTotalPreorder(TitleOf(a), TitleOf(b), TitleOf(a));
    }
    forall a, b, c | SimpleLe(a, b) && SimpleLe(b, c)
      ensures SimpleLe(a, c)
    {
      ListItemsQuery.TitleLeTotalPreorder(TitleOf(a), TitleOf(b), TitleOf(c));
      ListItemsQuery.TitleLeTotalPreorder(TitleOf(b), TitleOf(c), TitleOf(a));
      ListItemsQuery.TitleLeTotalPreorder(TitleOf(c), TitleOf(a), TitleOf(b));
      ListItemsQuery.TitleLeTotalPreorder(TitleOf(b), TitleOf(a), TitleOf(c));
      ListItemsQuery.TitleLeTotalPreorder(TitleOf(a), TitleOf(c), TitleOf(b));
      ListItemsQuery.TitleLeTotalPreorder(TitleOf(c), TitleOf(b), TitleOf(a));
    }
  }

  datatype SimpleItem = SimpleItem(releaseDate: Date, mediaItem: Option<MediaItem>, episode: Option<Episode>)

  /** A tv show's entry is dated by its episode, any other item by itself. */
  function ToSimpleItem(row: SimpleRow): SimpleItem {
    var releaseDate :=
      if row.mediaItem.Some? && row.mediaItem.value.mediaType == Tv then
        (if row.episode.Some? then row.episode.value.releaseDate else Null)
      else if row.mediaItem.Some? then row.mediaItem.value.releaseDate
      else Null;
    SimpleItem(releaseDate, row.mediaItem, row.episode)
  }

  function SimpleItems(rows: seq<SimpleRow>): (r: seq<SimpleItem>)
    ensures |r| == |rows|
    ensures forall i :: 0 <= i < |r| ==> r[i] == ToSimpleItem(rows[i])
  {
    seq(|rows|, i requires 0 <= i < |rows| => ToSimpleItem(rows[i]))
  }

  /** The rows the simple query filters: those of calendar list items, released in range. */
  function SimpleRangeRows(c: Catalog, lists: seq<List>, items: seq<ListItem>, q: CalendarQuery): (r: seq<SimpleRow>)
    ensures forall row :: row in r ==>
      SimpleInRange(row, q.start, q.end)
      && exists li :: li in items && OnCalendarList(lists, q, li) && row in SimpleExpand(c, li)
  {
    Filter(SimpleRows(c, CalendarListItems(lists, items, q)), (row: SimpleRow) => SimpleInRange(row, q.start, q.end))
  }

  /** The simple query's rows: one per group, in ORDER BY order. */
  function SimpleOrdered(c: Catalog, lists: seq<List>, items: seq<ListItem>, q: CalendarQuery): seq<SimpleRow> {
    SortBy(UniqBy(SimpleRangeRows(c, lists, items, q), GroupOf), SimpleLe)
  }

  /** `getSimpleCalendarItems`: the bounds are full timestamps. */
  function Simple(c: Catalog, lists: seq<List>, items: seq<ListItem>, q: CalendarQuery): (r: seq<SimpleItem>)
    ensures |r| == |UniqBy(SimpleRangeRows(c, lists, items, q), GroupOf)|
  {
    SimpleItems(SimpleOrdered(c, lists, items, q))
  }

  function ItemGroup(x: SimpleItem): GroupKey {
    GroupOf(SimpleRow(x.mediaItem, x.episode))
  }

  function AnyRow(row: SimpleRow): bool {
    true
  }

  /**
    The simple calendar has at most one entry per (media item, episode)
    pair and is ordered by title, season number and episode number.
   */
  lemma SimpleGroupedAndOrdered(c: Catalog, lists: seq<List>, items: seq<ListItem>, q: CalendarQuery)
    ensures var r := Simple(c, lists, items, q);
      (forall i, j :: 0 <= i < j < |r| ==> ItemGroup(r[i]) != ItemGroup(r[j]))
      && (forall i, j :: 0 <= i < j < |r| ==>
            SimpleLe(SimpleRow(r[i].mediaItem, r[i].episode), SimpleRow(r[j].mediaItem, r[j].episode)))
  {
    var unique := UniqBy(SimpleRangeRows(c, lists, items, q), GroupOf);
    var ordered := SortBy(unique, SimpleLe);
    SimpleLeTotalPreorder();
    SortBySorted(unique, SimpleLe);
    UniqByDistinct(SimpleRangeRows(c, lists, items, q), GroupOf);
    PermutationKeepsDistinct(unique, ordered, GroupOf, AnyRow);
    var r := Simple(c, lists, items, q);
    forall i, j | 0 <= i < j < |r|
      ensures ItemGroup(r[i]) != ItemGroup(r[j])
    {
      assert SimpleRow(r[i].mediaItem, r[i].episode) == ordered[i];
      assert SimpleRow(r[j].mediaItem, r[j].episode) == ordered[j];
      assert AnyRow(ordered[i]) && AnyRow(ordered[j]);
    }
  }

  /**
    A tv show is on the simple calendar only with an episode released in
    range, and its entry carries that episode's release date.
   */
  lemma SimpleShowsListEpisodes(c: Catalog, lists: seq<List>, items: seq<ListItem>, q: CalendarQuery, x: SimpleItem)
    requires x in Simple(c, lists, items, q)
    requires x.mediaItem.Some? && x.mediaItem.value.mediaType == Tv
    ensures x.episode.Some? && x.releaseDate == x.episode.value.releaseDate
    ensures x.episode.value.tvShowId == x.mediaItem.value.id
    ensures Between(x.releaseDate, q.start, q.end)
  {
    var unique := UniqBy(SimpleRangeRows(c, lists, items, q), GroupOf);
    var ordered := SortBy(unique, SimpleLe);
    var r := Simple(c, lists, items, q);
    var i :| 0 <= i < |r| && r[i] == x;
    assert ordered[i] in multiset(unique);
    assert ordered[i] in SimpleRangeRows(c, lists, items, q);
  }

  /**
    Every simple entry has a media item, and an entry that is not a tv
    show is dated by its item and either released in range itself or joined
    to an episode released in range.
   */
  lemma SimpleEntriesInRange(c: Catalog, lists: seq<List>, items: seq<ListItem>, q: CalendarQuery, x: SimpleItem)
    requires x in Simple(c, lists, items, q)
    ensures x.mediaItem.Some?
    ensures x.mediaItem.value.mediaType != Tv ==>
      x.releaseDate == x.mediaItem.value.releaseDate
      && (Between(x.releaseDate, q.start, q.end) || (x.episode.Some? && Between(x.episode.value.releaseDate, q.start, q.end)))
  {
    var unique := UniqBy(SimpleRangeRows(c, lists, items, q), GroupOf);
    var ordered := SortBy(unique, SimpleLe);
    var r := Simple(c, lists, items, q);
    var i :| 0 <= i < |r| && r[i] == x;
    assert ordered[i] in multiset(unique);
    assert ordered[i] in SimpleRangeRows(c, lists, items, q);
  }

  /** Every row in range of a calendar list item has its (media item, episode) pair on the simple calendar. */
  lemma SimpleCovers(c: Catalog, lists: seq<List>, items: seq<ListItem>, q: CalendarQuery, li: ListItem, row: SimpleRow)
    requires li in items && OnCalendarList(lists, q, li)
    requires row in SimpleExpand(c, li) && SimpleInRange(row, q.start, q.end)
    ensures exists x :: x in Simple(c, lists, items, q) && ItemGroup(x) == GroupOf(row)
  {
    SimpleRowsCover(c, CalendarListItems(lists, items, q), li, row);
    var rows := SimpleRangeRows(c, lists, items, q);
    assert row in rows;
    UniqByCovers(rows, GroupOf, row);
    var y :| y in UniqBy(rows, GroupOf) && GroupOf(y) == GroupOf(row);
    OrderedRowListed(UniqBy(rows, GroupOf), y);
  }

  /** A row of the grouped rows is listed, under its own group, once ordered. */
  lemma OrderedRowListed(unique: seq<SimpleRow>, y: SimpleRow)
    requires y in unique
    ensures exists x :: x in SimpleItems(SortBy(unique, SimpleLe)) && ItemGroup(x) == GroupOf(y)
  {
    var ordered := SortBy(unique, SimpleLe);
    assert y in multiset(ordered);
    var k :| 0 <= k < |ordered| && ordered[k] == y;
    var r := SimpleItems(ordered);
    assert r[k] == ToSimpleItem(y);
    assert r[k] in r;
  }

  lemma {:induction false} SimpleRowsCover(c: Catalog, items: seq<ListItem>, li: ListItem, row: SimpleRow)
    requires li in items && row in SimpleExpand(c, li)
    ensures row in SimpleRows(c, items)
  {
    if items[0] != li {
      assert li in items[1..];
      SimpleRowsCover(c, items[1..], li, row);
    }
  }

  // ------------------------------------------------------------ the two forms' bounds

  /**
    A date-only release on the start day is inside the detailed calendar's
    range, which compares against the start's date-only prefix, but outside
    the simple calendar's, which compares against the full start timestamp.
   */
  lemma StartDayBoundary(day: int, ms: int, end: int)
    requires 0 <= ms < MsPerDay
    requires DateOnly(day) <= DatePrefix(end)
    ensures DatePrefix(Timestamp(day, ms)) == DateOnly(day)
    ensures Between(At(DateOnly(day)), DatePrefix(Timestamp(day, ms)), DatePrefix(end))
    ensures !Between(At(DateOnly(day)), Timestamp(day, ms), end)
  {
  }

  // ------------------------------------------------------------ permutations

  /** Elements that satisfy `p` have pairwise different keys. */
  ghost predicate DistinctAmong<T, K>(s: seq<T>, key: T -> K, p: T -> bool) {
    forall i, j :: 0 <= i < j < |s| && p(s[i]) && p(s[j]) ==> key(s[i]) != key(s[j])
  }

  /** Reordering keeps keys distinct. */
  lemma PermutationKeepsDistinct<T, K>(s: seq<T>, r: seq<T>, key: T -> K, p: T -> bool)
    requires multiset(s) == multiset(r)
    requires DistinctAmong(s, key, p)
    ensures DistinctAmong(r, key, p)
  {
    forall i, j | 0 <= i < j < |r| && p(r[i]) && p(r[j])
      ensures key(r[i]) != key(r[j])
    {
      DistinctPositions(s, r, i, j);
      var a, b :| 0 <= a < |s| && 0 <= b < |s| && a != b && s[a] == r[i] && s[b] == r[j];
      if a < b {
        assert key(s[a]) != key(s[b]);
      } else {
        assert key(s[b]) != key(s[a]);
      }
    }
  }

  /** Two positions of a permutation come from two positions of the original. */
  lemma DistinctPositions<T>(s: seq<T>, r: seq<T>, i: int, j: int)
    requires multiset(s) == multiset(r)
    requires 0 <= i < j < |r|
    ensures exists a, b :: 0 <= a < |s| && 0 <= b < |s| && a != b && s[a] == r[i] && s[b] == r[j]
  {
    if r[i] == r[j] {
      TwoOccurrences(r, i, j);
      FindTwo(s, r[i]);
    } else {
      assert r[i] in multiset(s) && r[j] in multiset(s);
      var a :| 0 <= a < |s| && s[a] == r[i];
      var b :| 0 <= b < |s| && s[b] == r[j];
    }
  }

  lemma TwoOccurrences<T>(r: seq<T>, i: int, j: int)
    requires 0 <= i < j < |r| && r[i] == r[j]
    ensures multiset(r)[r[i]] >= 2
  {
    assert r == r[..j] + [r[j]] + r[j + 1..];
    assert r[..j][i] == r[i];
    assert multiset(r) == multiset(r[..j]) + multiset([r[j]]) + multiset(r[j + 1..]);
  }

  lemma {:induction false} FindTwo<T>(s: seq<T>, x: T)
    requires multiset(s)[x] >= 2
    ensures exists a, b :: 0 <= a < b < |s| && s[a] == x && s[b] == x
  {
    assert s == [s[0]] + s[1..];
    assert multiset(s) == multiset([s[0]]) + multiset(s[1..]);
    if s[0] == x {
      assert x in multiset(s[1..]);
      var k :| 0 <= k < |s[1..]| && s[1..][k] == x;
      assert s[k + 1] == x;
    } else {
      FindTwo(s[1..], x);
      var a, b :| 0 <= a < b < |s[1..]| && s[1..][a] == x && s[1..][b] == x;
      assert s[a + 1] == x && s[b + 1] == x;
    }
  }
}
