/**
  The `seen` record (server/src/entity/seen.ts): one watch event of a user,
  for a whole media item (no episode) or for one episode.
 */
module SeenEntity {
  import opened Entities

  /**
    A seen row. `mediaItemId` and `userId` are always present; an absent
    `date` means "seen, date unknown".
   */
  datatype Seen = Seen(
    id: Option<Id>,
    date: Option<int>,
    mediaItemId: Id,
    episodeId: Option<Id>,
    userId: Id,
    duration: Option<int>)

  datatype SeenColumn = DateColumn | IdColumn | MediaItemIdColumn | EpisodeIdColumn | UserIdColumn | DurationColumn

  /** The column list `seenColumns`, in its declared order. */
  const SeenColumns: seq<SeenColumn> :=
    [DateColumn, IdColumn, MediaItemIdColumn, EpisodeIdColumn, UserIdColumn, DurationColumn]

  /** The value a seen row holds in a column (absent values as None). */
  function ColumnValue(s: Seen, c: SeenColumn): Option<int> {
    match c
    case DateColumn => s.date
    case IdColumn => s.id
    case MediaItemIdColumn => Some(s.mediaItemId)
    case EpisodeIdColumn => s.episodeId
    case UserIdColumn => Some(s.userId)
    case DurationColumn => s.duration
  }

  /** A row is determined by its values in the `seenColumns` columns. */
  lemma SeenColumnsDetermineRow(a: Seen, b: Seen)
    requires forall i :: 0 <= i < |SeenColumns| ==> ColumnValue(a, SeenColumns[i]) == ColumnValue(b, SeenColumns[i])
    ensures a == b
  {
    assert ColumnValue(a, SeenColumns[0]) == ColumnValue(b, SeenColumns[0]);
    assert ColumnValue(a, SeenColumns[1]) == ColumnValue(b, SeenColumns[1]);
    assert ColumnValue(a, SeenColumns[2]) == ColumnValue(b, SeenColumns[2]);
    assert ColumnValue(a, SeenColumns[3]) == ColumnValue(b, SeenColumns[3]);
    assert ColumnValue(a, SeenColumns[4]) == ColumnValue(b, SeenColumns[4]);
    assert ColumnValue(a, SeenColumns[5]) == ColumnValue(b, SeenColumns[5]);
  }

  /** `seenColumns` names every column once. */
  lemma SeenColumnsExact(c: SeenColumn)
    ensures |SeenColumns| == 6
    ensures multiset(SeenColumns)[c] == 1
  {
  }

  /** `SeenFilters.mediaItemSeenValue`: `Boolean(!seen.episodeId)`. */
  predicate MediaItemSeenValue(s: Seen) {
    !Truthy(s.episodeId)
  }

  /** `SeenFilters.episodeSeenValue`: `Boolean(seen.episodeId)`. */
  predicate EpisodeSeenValue(s: Seen) {
    Truthy(s.episodeId)
  }

  /** A row is a media-item event iff it has no episode id or episode id 0. */
  lemma MediaItemSeenValueIff(s: Seen)
    ensures MediaItemSeenValue(s) <==> (s.episodeId.None? || s.episodeId == Some(0))
  {
  }

  /** An episode event iff the episode id is present and nonzero. */
  lemma EpisodeSeenValueIff(s: Seen)
    ensures EpisodeSeenValue(s) <==> (s.episodeId.Some? && s.episodeId.value != 0)
  {
  }

  /** Every seen row is exactly one of a media-item event and an episode event. */
  lemma SeenGranularityExclusive(s: Seen)
    ensures MediaItemSeenValue(s) != EpisodeSeenValue(s)
  {
  }
}
