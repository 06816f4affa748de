/**
  The list-items query (`items` in server/src/repository/list.ts): the rows
  of one list, filtered by media type and TMDB id, ordered by the ORDER BY
  clause the `orderBy` switch builds, and returned whole or as one page.
 */
module ListItemsQuery {
  import opened Entities
  import opened SeenEntity
  import opened Strings
  import opened Sorting
  import opened Pagination
  import opened ListView

  /** The `orderBy` values with a case of their own; every other value takes the default case. */
  datatype OrderBy = ByTitle | ByReleaseDate | ByListedAt | ByRandom | ByOther

  datatype SortOrder = Asc | Desc

  /** One `query.orderBy(column, direction)` call. */
  datatype OrderKey = TitleKey(dir: SortOrder) | ReleaseDateKey(dir: SortOrder) | ListedAtKey(dir: SortOrder) | IdKey

  datatype ItemsArgs = ItemsArgs(
    listId: Id,
    userId: Id,
    mediaType: Option<MediaType>,
    tmdbId: Option<int>,
    page: Option<nat>,
    limit: Option<nat>,
    orderBy: Option<OrderBy>,
    sortOrder: Option<SortOrder>)

  datatype ItemsResult = All(items: seq<ItemView>) | Page(paged: Paged<ItemView>)

  /** SQL ascending order of a nullable text column: NULL first, then code-point order. */
  predicate TitleLe(a: Option<string>, b: Option<string>) {
    a.None? || (b.Some? && StrLe(a.value, b.value))
  }

  /** The order one ORDER BY term imposes on result items (descending reverses it). */
  predicate KeyLe(k: OrderKey, a: ItemView, b: ItemView) {
    match k
    case TitleKey(Asc) => TitleLe(a.mediaItem.title, b.mediaItem.title)
    case TitleKey(Desc) => TitleLe(b.mediaItem.title, a.mediaItem.title)
    case ReleaseDateKey(Asc) => DateLe(a.mediaItem.releaseDate, b.mediaItem.releaseDate)
    case ReleaseDateKey(Desc) => DateLe(b.mediaItem.releaseDate, a.mediaItem.releaseDate)
    case ListedAtKey(Asc) => a.listedAt <= b.listedAt
    case ListedAtKey(Desc) => b.listedAt <= a.listedAt
    case IdKey => a.id <= b.id
  }

  /** A whole ORDER BY clause: the first term decides, ties fall to the next term. */
  predicate KeysLe(keys: seq<OrderKey>, a: ItemView, b: ItemView) {
    if keys == [] then true
    else KeyLe(keys[0], a, b) && (KeyLe(keys[0], b, a) ==> KeysLe(keys[1..], a, b))
  }

  lemma DateLeTotalPreorder(a: Date, b: Date, c: Date)
    ensures DateLe(a, b) || DateLe(b, a)
    ensures DateLe(a, b) && DateLe(b, c) ==> DateLe(a, c)
  {
  }

  lemma TitleLeTotalPreorder(a: Option<string>, b: Option<string>, c: Option<string>)
    ensures TitleLe(a, b) || TitleLe(b, a)
    ensures TitleLe(a, b) && TitleLe(b, c) ==> TitleLe(a, c)
  {
    if a.Some? && b.Some? {
      StrLeTotal(a.value, b.value);
      if c.Some? && StrLe(a.value, b.value) && StrLe(b.value, c.value) {
        StrLeTransitive(a.value, b.value, c.value);
      }
    }
  }

  lemma KeyLeTotalPreorder(k: OrderKey, a: ItemView, b: ItemView, c: ItemView)
    ensures KeyLe(k, a, b) || KeyLe(k, b, a)
    ensures KeyLe(k, a, b) && KeyLe(k, b, c) ==> KeyLe(k, a, c)
  {
    match k
    case TitleKey(_) =>
      TitleLeTotalPreorder(a.mediaItem.title, b.mediaItem.title, c.mediaItem.title);
      TitleLeTotalPreorder(c.mediaItem.title, b.mediaItem.title, a.mediaItem.title);
    case ReleaseDateKey(_) =>
      DateLeTotalPreorder(a.mediaItem.releaseDate, b.mediaItem.releaseDate, c.mediaItem.releaseDate);
      DateLeTotalPreorder(c.mediaItem.releaseDate, b.mediaItem.releaseDate, a.mediaItem.releaseDate);
    case ListedAtKey(_) =>
    case IdKey =>
  }

  /** Every ORDER BY clause orders the items totally (up to ties). */
  lemma {:induction false} KeysLeTotalPreorder(keys: seq<OrderKey>, a: ItemView, b: ItemView, c: ItemView)
    ensures KeysLe(keys, a, b) || KeysLe(keys, b, a)
    ensures KeysLe(keys, a, b) && KeysLe(keys, b, c) ==> KeysLe(keys, a, c)
  {
    if keys != [] {
      var k := keys[0];
      KeyLeTotalPreorder(k, a, b, c);
      KeyLeTotalPreorder(k, b, a, c);
      KeyLeTotalPreorder(k, c, a, b);
      KeyLeTotalPreorder(k, a, c, b);
      KeyLeTotalPreorder(k, b, c, a);
      KeyLeTotalPreorder(k, c, b, a);
      KeysLeTotalPreorder(keys[1..], a, b, c);
    }
  }

  function Order(keys: seq<OrderKey>): (ItemView, ItemView) -> bool {
    (a: ItemView, b: ItemView) => KeysLe(keys, a, b)
  }

  lemma OrderIsTotalPreorder(keys: seq<OrderKey>)
    ensures TotalPreorder(Order(keys))
  {
    forall a, b ensures Order(keys)(a, b) || Order(keys)(b, a) {
      KeysLeTotalPreorder(keys, a, b, a);
    }
    forall a, b, c | Order(keys)(a, b) && Order(keys)(b, c) ensures Order(keys)(a, c) {
      KeysLeTotalPreorder(keys, a, b, c);
    }
  }

  /** The ORDER BY clause of each `orderBy` case. */
  function OrderKeys(orderBy: Option<OrderBy>, sortOrder: Option<SortOrder>): (r: seq<OrderKey>)
    ensures r == [] <==> orderBy == Some(ByRandom)
    ensures |r| <= 2
    ensures |r| == 2 ==> r[1] == TitleKey(Asc)
  {
    var dir := if sortOrder.Some? then sortOrder.value else Asc;
    if orderBy == Some(ByTitle) then [TitleKey(dir)]
    else if orderBy == Some(ByReleaseDate) then [ReleaseDateKey(dir), TitleKey(Asc)]
    else if orderBy == Some(ByListedAt) then [ListedAtKey(dir), TitleKey(Asc)]
    else if orderBy == Some(ByRandom) then []
    else [IdKey]
  }

  /** The WHERE clause: the list, and the media type and TMDB id when given. */
  predicate Selected(f: Facts, args: ItemsArgs, li: ListItem) {
    var m := FindMediaItem(f.catalog.mediaItems, li.mediaItemId);
    li.listId == args.listId
    && (args.mediaType.Some? ==> m.Some? && m.value.mediaType == args.mediaType.value)
    && (Truthy(args.tmdbId) ==> m.Some? && m.value.tmdbId == args.tmdbId)
  }

  function Views(f: Facts, userId: Id, watchlistId: Id, now: int, rows: seq<ListItem>): (r: seq<ItemView>)
    ensures |r| == |rows|
    ensures forall i :: 0 <= i < |rows| ==> r[i] == View(f, userId, watchlistId, now, rows[i])
  {
    seq(|rows|, i requires 0 <= i < |rows| => View(f, userId, watchlistId, now, rows[i]))
  }

  /**
    The result of the query: an error when the user has no watchlist (the
    destructuring of a missing row throws) or the page starts past the end;
    otherwise the selected items in ORDER BY order, whole or one page.
   */
  function ItemsSpec(lists: seq<List>, f: Facts, args: ItemsArgs, now: int): (r: Result<ItemsResult>)
    ensures r.Failure? <==>
      (FindWatchlist(lists, args.userId).None?
       || (args.page.Some? && args.page.value != 0
           && ItemsPerPage(args.limit) * (args.page.value - 1) > |Filter(f.listItems, li => Selected(f, args, li))|))
  {
    var watchlist := FindWatchlist(lists, args.userId);
    if watchlist.None? then Failure("no watchlist")
    else
      var rows := Filter(f.listItems, li => Selected(f, args, li));
      var ordered := SortBy(Views(f, args.userId, watchlist.value.id, now, rows), Order(OrderKeys(args.orderBy, args.sortOrder)));
      if args.page.Some? && args.page.value != 0 then
        match Paginate(ordered, args.page.value, ItemsPerPage(args.limit))
        case Failure(e) => Failure(e)
        case Success(p) => Success(Page(p))
      else Success(All(ordered))
  }

  /**
    The query as the repository builds it: the `orderBy` switch adds terms
    to the ORDER BY clause one call at a time. This is the implementation;
    `ItemsSpec` is its specification, and the lemmas below are about that.
   */
  method Items(lists: seq<List>, f: Facts, args: ItemsArgs, now: int) returns (r: Result<ItemsResult>)
    ensures r == ItemsSpec(lists, f, args, now)
  {
    var watchlist := FindWatchlist(lists, args.userId);
    if watchlist.None? {
      return Failure("no watchlist");
    }
    var rows := Filter(f.listItems, li => Selected(f, args, li));
    var order: seq<OrderKey> := [];
    var dir := if args.sortOrder.Some? then args.sortOrder.value else Asc;
    match args.orderBy {
      case Some(ByTitle) =>
        order := order + [TitleKey(dir)];
      case Some(ByReleaseDate) =>
        order := order + [ReleaseDateKey(dir)];
        order := order + [TitleKey(Asc)];
      case Some(ByListedAt) =>
        order := order + [ListedAtKey(dir)];
        order := order + [TitleKey(Asc)];
      case Some(ByRandom) =>
      case _ =>
        order := order + [IdKey];
    }
    assert order == OrderKeys(args.orderBy, args.sortOrder);
    var ordered := SortBy(Views(f, args.userId, watchlist.value.id, now, rows), Order(order));
    if args.page.Some? && args.page.value != 0 {
      var p := Paginate(ordered, args.page.value, ItemsPerPage(args.limit));
      if p.Failure? {
        return Failure(p.error);
      }
      return Success(Page(p.value));
    }
    return Success(All(ordered));
  }

  /** Without a watchlist the query fails. */
  lemma ItemsNeedWatchlist(lists: seq<List>, f: Facts, args: ItemsArgs, now: int)
    requires forall l :: l in lists ==> !(l.userId == args.userId && l.isWatchlist)
    ensures ItemsSpec(lists, f, args, now).Failure?
  {
  }

  lemma SlicePreservesSorted<T>(s: seq<T>, lo: nat, hi: nat, le: (T, T) -> bool)
    requires lo <= hi <= |s| && Sorted(s, le)
    ensures Sorted(s[lo..hi], le)
  {
    forall i, j | 0 <= i < j < hi - lo ensures le(s[lo..hi][i], s[lo..hi][j]) {
      assert s[lo..hi][i] == s[lo + i] && s[lo..hi][j] == s[lo + j];
    }
  }

  /**
    Unpaged, the result holds exactly the views of the selected list items
    (as a multiset) in ORDER BY order.
   */
  lemma ItemsUnpaged(lists: seq<List>, f: Facts, args: ItemsArgs, now: int)
    requires FindWatchlist(lists, args.userId).Some?
    requires args.page.None? || args.page == Some(0)
    ensures var r := ItemsSpec(lists, f, args, now);
      var w := FindWatchlist(lists, args.userId).value.id;
      r.Success? && r.value.All?
      && multiset(r.value.items) == multiset(Views(f, args.userId, w, now, Filter(f.listItems, li => Selected(f, args, li))))
      && Sorted(r.value.items, Order(OrderKeys(args.orderBy, args.sortOrder)))
  {
    var w := FindWatchlist(lists, args.userId).value.id;
    var keys := OrderKeys(args.orderBy, args.sortOrder);
    OrderIsTotalPreorder(keys);
    SortBySorted(Views(f, args.userId, w, now, Filter(f.listItems, li => Selected(f, args, li))), Order(keys));
  }

  /**
    A page counts all selected items and holds exactly the rows `from` to
    `to` of the items in ORDER BY order; it fails only when it starts past
    the end.
   */
  lemma ItemsPaged(lists: seq<List>, f: Facts, args: ItemsArgs, now: int)
    requires FindWatchlist(lists, args.userId).Some?
    requires args.page.Some? && args.page.value >= 1
    ensures var r := ItemsSpec(lists, f, args, now);
      var selected := Filter(f.listItems, li => Selected(f, args, li));
      var w := FindWatchlist(lists, args.userId).value.id;
      var ordered := SortBy(Views(f, args.userId, w, now, selected), Order(OrderKeys(args.orderBy, args.sortOrder)));
      (r.Failure? <==> ItemsPerPage(args.limit) * (args.page.value - 1) > |selected|)
      && (r.Success? ==>
            r.value.Page? && r.value.paged.total == |selected|
            && 0 <= r.value.paged.from <= r.value.paged.to <= |ordered|
            && r.value.paged.data == ordered[r.value.paged.from..r.value.paged.to]
            && Sorted(r.value.paged.data, Order(OrderKeys(args.orderBy, args.sortOrder))))
  {
    var w := FindWatchlist(lists, args.userId).value.id;
    var keys := OrderKeys(args.orderBy, args.sortOrder);
    var views := Views(f, args.userId, w, now, Filter(f.listItems, li => Selected(f, args, li)));
    var ordered := SortBy(views, Order(keys));
    OrderIsTotalPreorder(keys);
    SortBySorted(views, Order(keys));
    var p := Paginate(ordered, args.page.value, ItemsPerPage(args.limit));
    if p.Success? {
      PaginateData(ordered, args.page.value, ItemsPerPage(args.limit));
      SlicePreservesSorted(ordered, p.value.from, p.value.to, Order(keys));
    }
  }

  /**
    Ordered by release date, items are in release-date order in the chosen
    direction, and items with the same release date are in ascending title order.
   */
  lemma ReleaseDateOrder(s: seq<ItemView>, dir: SortOrder, i: nat, j: nat)
    requires Sorted(s, Order(OrderKeys(Some(ByReleaseDate), Some(dir))))
    requires i < j < |s|
    ensures dir == Asc ==> DateLe(s[i].mediaItem.releaseDate, s[j].mediaItem.releaseDate)
    ensures dir == Desc ==> DateLe(s[j].mediaItem.releaseDate, s[i].mediaItem.releaseDate)
    ensures s[i].mediaItem.releaseDate == s[j].mediaItem.releaseDate ==> TitleLe(s[i].mediaItem.title, s[j].mediaItem.title)
  {
    var keys := OrderKeys(Some(ByReleaseDate), Some(dir));
    assert KeysLe(keys, s[i], s[j]);
    assert keys[1..] == [TitleKey(Asc)];
    assert KeysLe(keys[1..], s[i], s[j]) ==> KeyLe(TitleKey(Asc), s[i], s[j]);
  }

  /** Ordered by the date listed, likewise with ascending titles among ties. */
  lemma ListedAtOrder(s: seq<ItemView>, dir: SortOrder, i: nat, j: nat)
    requires Sorted(s, Order(OrderKeys(Some(ByListedAt), Some(dir))))
    requires i < j < |s|
    ensures dir == Asc ==> s[i].listedAt <= s[j].listedAt
    ensures dir == Desc ==> s[j].listedAt <= s[i].listedAt
    ensures s[i].listedAt == s[j].listedAt ==> TitleLe(s[i].mediaItem.title, s[j].mediaItem.title)
  {
    var keys := OrderKeys(Some(ByListedAt), Some(dir));
    assert KeysLe(keys, s[i], s[j]);
    assert keys[1..] == [TitleKey(Asc)];
    assert KeysLe(keys[1..], s[i], s[j]) ==> KeyLe(TitleKey(Asc), s[i], s[j]);
  }

  /** Ordered by title with no sort order given, titles ascend (absent titles first). */
  lemma TitleOrder(s: seq<ItemView>, i: nat, j: nat)
    requires Sorted(s, Order(OrderKeys(Some(ByTitle), None)))
    requires i < j < |s|
    ensures TitleLe(s[i].mediaItem.title, s[j].mediaItem.title)
  {
    assert KeysLe(OrderKeys(Some(ByTitle), None), s[i], s[j]);
  }

  /** Without an `orderBy` case of its own, items ascend by list item id. */
  lemma DefaultOrder(s: seq<ItemView>, orderBy: Option<OrderBy>, sortOrder: Option<SortOrder>, i: nat, j: nat)
    requires orderBy.None? || orderBy == Some(ByOther)
    requires Sorted(s, Order(OrderKeys(orderBy, sortOrder)))
    requires i < j < |s|
    ensures s[i].id <= s[j].id
  {
    assert KeysLe(OrderKeys(orderBy, sortOrder), s[i], s[j]);
  }
}
