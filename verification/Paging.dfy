/** Enumerating a listing page by page: the sitemap's loop over all products
  * (crates/web/src/routes/sitemap.rs) and the "next" links of a category page
  * (crates/web/src/routes/category.rs), both over a fixed catalog. */
module Paging {
  import opened Prelude
  import opened Projection
  import opened Ranking
  import opened Search

  const DEFAULT_LIMIT: UInt32 := 24

  function SaturatingAdd(a: UInt32, b: UInt32): UInt32 {
    Min(a + b, UINT32_MAX)
  }

  // -----------------------------------------------------------------
  // The sitemap
  // -----------------------------------------------------------------

  function AllPublished(offset: UInt32): Query {
    Query(None, None, [], Relevance, Pagination(offset, MAX_LIMIT))
  }

  /** `paths` are the addresses of the products in `list`, in the same order. */
  ghost predicate PathsOf(base: string, c: Catalog, list: seq<Entry>, paths: seq<string>) {
    && |paths| == |list|
    && forall i :: 0 <= i < |list| ==>
         list[i].id in c.tables.cards && paths[i] == base + "/p/" + c.tables.cards[list[i].id].slug
  }

  /** Newest first, ties by id, each product once. */
  ghost predicate NewestFirst(c: Catalog, ids: seq<string>) {
    && Distinct(ids)
    && forall i, j :: 0 <= i < j < |ids| && ids[i] in c.tables.cards && ids[j] in c.tables.cards ==>
         var a, b := c.tables.cards[ids[i]].createdAt, c.tables.cards[ids[j]].createdAt;
         a > b || (a == b && Less(ids[i], ids[j]))
  }

  function IdsOf(list: seq<Entry>): (ids: seq<string>)
    ensures |ids| == |list| && forall i :: 0 <= i < |list| ==> ids[i] == list[i].id
  {
    seq(|list|, i requires 0 <= i < |list| => list[i].id)
  }

  lemma ListingIds(engine: TextEngine, c: Catalog, q: Query, id: string)
    ensures id in IdsOf(Listing(engine, c, q)) <==> Matches(engine, c.tables, q, id)
  {
    var list, found := Listing(engine, c, q), Found(engine, c, q);
    SortedMeaning(Entries(c, found, q.sort));
    if Matches(engine, c.tables, q, id) {
      var e := Entry(Rank(q.sort, c.tables.cards[id]), id);
      assert id in found && e in Entries(c, found, q.sort) && e in Elements(list);
      var i :| 0 <= i < |list| && list[i] == e;
      assert IdsOf(list)[i] == id;
    }
    forall i | 0 <= i < |list| && list[i].id == id
      ensures Matches(engine, c.tables, q, id)
    {
      assert list[i] in Elements(list) && list[i] in Entries(c, found, q.sort);
    }
  }

  lemma ListingIsNewestFirst(engine: TextEngine, c: Catalog, q: Query)
    requires q.sort.Relevance? || q.sort.Newest?
    ensures NewestFirst(c, IdsOf(Listing(engine, c, q)))
  {
    var ids := IdsOf(Listing(engine, c, q));
    forall i, j | 0 <= i < j < |ids|
      ensures ids[i] != ids[j] && ids[i] in c.tables.cards && ids[j] in c.tables.cards
      ensures var a, b := c.tables.cards[ids[i]].createdAt, c.tables.cards[ids[j]].createdAt;
              a > b || (a == b && Less(ids[i], ids[j]))
    {
      ListingIsSorted(engine, c, q, i, j);
      LessIsTotal(ids[i], ids[j]);
    }
  }

  /** The addresses of all published products under `base`, each once, newest first. */
  ghost predicate Published(base: string, c: Catalog, ids: seq<string>, paths: seq<string>) {
    && NewestFirst(c, ids)
    && (forall id :: id in ids <==> id in c.tables.cards && c.tables.cards[id].status == "published")
    && |paths| == |ids|
    && forall i :: 0 <= i < |ids| ==> ids[i] in c.tables.cards && paths[i] == base + "/p/" + c.tables.cards[ids[i]].slug
  }

  lemma AllPublishedMeaning(engine: TextEngine, c: Catalog, base: string, paths: seq<string>)
    requires Coherent(c) && PathsOf(base, c, Listing(engine, c, AllPublished(0)), paths)
    ensures Published(base, c, IdsOf(Listing(engine, c, AllPublished(0))), paths)
  {
    ListingIsNewestFirst(engine, c, AllPublished(0));
    forall id
      ensures id in IdsOf(Listing(engine, c, AllPublished(0)))
         <==> id in c.tables.cards && c.tables.cards[id].status == "published"
    {
      ListingIds(engine, c, AllPublished(0), id);
      QueryMeaning(engine, c, AllPublished(0), id);
    }
  }

  lemma ListingIgnoresPage(engine: TextEngine, c: Catalog, offset: UInt32)
    ensures Listed(engine, c, AllPublished(offset)) == Listing(engine, c, AllPublished(0))
  {
    assert Found(engine, c, AllPublished(offset)) == Found(engine, c, AllPublished(0)) by {
      forall id | id in c.tables.cards
        ensures Matches(engine, c.tables, AllPublished(offset), id) <==> Matches(engine, c.tables, AllPublished(0), id)
      {
      }
    }
  }

  method Urls(base: string, items: seq<ProductCard>) returns (urls: seq<string>)
    ensures |urls| == |items| && forall i :: 0 <= i < |items| ==> urls[i] == base + "/p/" + items[i].slug
  {
    urls := [];
    for i := 0 to |items|
      invariant |urls| == i && forall j :: 0 <= j < i ==> urls[j] == base + "/p/" + items[j].slug
    {
      urls := urls + [base + "/p/" + items[i].slug];
    }
  }

  lemma PathsAppend(base: string, c: Catalog, list: seq<Entry>, from: nat, to: nat, paths: seq<string>,
                    r: SearchResult, urls: seq<string>)
    requires from <= to <= |list| && to == Min(from + MAX_LIMIT, |list|)
    requires from <= UINT32_MAX && Answers(c, list, Pagination(from, MAX_LIMIT), r)
    requires |urls| == |r.items| && forall i :: 0 <= i < |urls| ==> urls[i] == base + "/p/" + r.items[i].slug
    requires PathsOf(base, c, list[..from], paths)
    ensures PathsOf(base, c, list[..to], paths + urls)
  {
    var rows := Slice(list, from, MAX_LIMIT);
    assert rows == list[from..to];
    forall i | 0 <= i < to
      ensures list[i].id in c.tables.cards
           && (paths + urls)[i] == base + "/p/" + c.tables.cards[list[i].id].slug
    {
      if i < from {
        assert list[i] == list[..from][i];
      } else {
        assert list[i] == rows[i - from];
      }
    }
  }

  lemma PublishedCount(engine: TextEngine, c: Catalog)
    requires Coherent(c)
    ensures var all := set id | id in c.tables.cards && c.tables.cards[id].status == "published";
            |all| == |Listing(engine, c, AllPublished(0))|
  {
    var q := AllPublished(0);
    var all := set id | id in c.tables.cards && c.tables.cards[id].status == "published";
    ListingMeaning(engine, c, q, Listing(engine, c, q));
    forall id
      ensures id in all <==> id in Found(engine, c, q)
    {
      QueryMeaning(engine, c, q, id);
    }
    assert all == Found(engine, c, q);
  }

  /** At most `rounds` rounds of the loop; `done` tells whether it has been left by then. It is left
    * exactly when the offset, which stops growing at the largest u32, can pass the last product; and
    * whenever it is left, every published product has been listed once, in order. */
  method ProductPaths(engine: TextEngine, c: Catalog, base: string, rounds: nat)
    returns (paths: seq<string>, done: bool, ghost ids: seq<string>)
    requires Coherent(c)
    ensures done ==> Published(base, c, ids, paths) && |paths| == |ids| <= 4294967295
    ensures done ==> forall i :: 0 <= i < |ids| ==>
              ids[i] in c.tables.cards && paths[i] == base + "/p/" + c.tables.cards[ids[i]].slug
    ensures var all := set id | id in c.tables.cards && c.tables.cards[id].status == "published";
            |all| <= 4294967295 && rounds > |all| / 100 ==> done
  {
    paths, done := [], false;
    var offset: UInt32 := 0;
    ghost var list := Listing(engine, c, AllPublished(0));
    ids := IdsOf(list);
    PublishedCount(engine, c);
    for round := 0 to rounds
      invariant |list| <= UINT32_MAX ==>
                  && offset == round * MAX_LIMIT
                  && (round > 0 ==> offset < |list|)
                  && PathsOf(base, c, list[..offset], paths)
    {
      ListingIgnoresPage(engine, c, offset);
      var result := Search.Search(engine, c, AllPublished(offset));
      if result.items == [] {
        assert list[..offset] == list;
        AllPublishedMeaning(engine, c, base, paths);
        return paths, true, ids;
      }
      var urls := Urls(base, result.items);
      ghost var to := Min(offset + MAX_LIMIT, |list|);
      if |list| <= UINT32_MAX {
        PathsAppend(base, c, list, offset, to, paths, result, urls);
      }
      paths := paths + urls;
      offset := SaturatingAdd(offset, MAX_LIMIT);
      if offset >= result.total {
        assert list[..to] == list;
        AllPublishedMeaning(engine, c, base, paths);
        return paths, true, ids;
      }
    }
  }

  // -----------------------------------------------------------------
  // Category pages
  // -----------------------------------------------------------------

  /** `(page - 1) * limit` in u64, cut to u32. */
  function PageOffset(page: UInt32): UInt32 {
    Min(Max(page - 1, 0) * DEFAULT_LIMIT, UINT32_MAX)
  }

  function PageItems<T>(list: seq<T>, page: UInt32): seq<T> {
    Slice(list, PageOffset(page), DEFAULT_LIMIT)
  }

  predicate HasNext<T>(list: seq<T>, page: UInt32) {
    PageOffset(page) + |PageItems(list, page)| < |list|
  }

  function CategoryQuery(category: string, filters: seq<FilterCond>, page: UInt32): Query {
    Query(None, Some(category), filters, Relevance, Pagination(PageOffset(page), DEFAULT_LIMIT))
  }

  /** `ids` is everything a category has to show: the published products that have an indexed attribute of the
    * category and satisfy every filter, each once, newest first, ties by id. */
  ghost predicate CategoryListing(c: Catalog, category: string, filters: seq<FilterCond>, ids: seq<string>) {
    && NewestFirst(c, ids)
    && forall id :: id in ids <==>
         && id in c.tables.cards && c.tables.cards[id].status == "published"
         && (exists a :: (id, a) in c.tables.attrs && c.tables.attrs[(id, a)].category == category)
         && forall f :: f in filters ==> Satisfies(c.tables, id, f)
  }

  /** No EnumAnd filter repeats a value. */
  ghost predicate NothingRepeated(filters: seq<FilterCond>) {
    forall f :: f in filters && f.EnumAnd? ==> Distinct(f.values)
  }

  /** The ids of the whole listing behind a category page. */
  ghost function CategoryIds(engine: TextEngine, c: Catalog, category: string, filters: seq<FilterCond>): seq<string> {
    IdsOf(Listed(engine, c, CategoryQuery(category, filters, 1)))
  }

  /** What a category has to show, said without the query that the page runs. */
  lemma CategoryListingIs(engine: TextEngine, c: Catalog, category: string, filters: seq<FilterCond>)
    requires Coherent(c) && NothingRepeated(filters)
    ensures CategoryListing(c, category, filters, CategoryIds(engine, c, category, filters))
  {
    var q, ids := CategoryQuery(category, filters, 1), CategoryIds(engine, c, category, filters);
    assert forall f :: f in q.filters ==> Sound(f);
    forall id
      ensures id in ids <==>
              && id in c.tables.cards && c.tables.cards[id].status == "published"
              && (exists a :: (id, a) in c.tables.attrs && c.tables.attrs[(id, a)].category == category)
              && forall f :: f in filters ==> Satisfies(c.tables, id, f)
    {
      ListingIds(engine, c, q, id);
      QueryMeaning(engine, c, q, id);
    }
    ListingIsNewestFirst(engine, c, q);
  }

  /** The items of a page are those of `ids` from position `from`, at most 24 of them. */
  ghost predicate ShowsFrom(c: Catalog, ids: seq<string>, from: nat, items: seq<ProductCard>) {
    && |items| == Min(24, Max(0, |ids| - from))
    && forall i :: 0 <= i < |items| ==>
         && ids[from + i] in c.tables.cards
         && var card := c.tables.cards[ids[from + i]];
            && items[i].id == ids[from + i] && items[i].title == card.title && items[i].slug == card.slug
            && items[i].price == card.price && items[i].currency == card.currency
  }

  /** When some EnumAnd filter repeats a value, a category has nothing to show. */
  lemma CategoryIdsMeaning(engine: TextEngine, c: Catalog, category: string, filters: seq<FilterCond>)
    requires Coherent(c)
    ensures var ids := CategoryIds(engine, c, category, filters);
            if NothingRepeated(filters) then CategoryListing(c, category, filters, ids) else ids == []
  {
    if NothingRepeated(filters) {
      CategoryListingIs(engine, c, category, filters);
    }
  }

  lemma SliceShows(c: Catalog, list: seq<Entry>, ids: seq<string>, from: UInt32, r: SearchResult)
    requires Answers(c, list, Pagination(from, 24), r) && ids == IdsOf(list)
    ensures ShowsFrom(c, ids, from, r.items) && r.total == |ids|
  {
    var rows := Slice(list, from, 24);
    assert |rows| == Min(24, Max(0, |ids| - from));
    forall i | 0 <= i < |rows|
      ensures rows[i].id == ids[from + i]
    {
      assert rows[i] == list[from + i];
    }
  }

  lemma PageShows(engine: TextEngine, c: Catalog, category: string, filters: seq<FilterCond>, from: UInt32,
                  r: SearchResult)
    requires Answers(c, Listed(engine, c, CategoryQuery(category, filters, 1)), Pagination(from, DEFAULT_LIMIT), r)
    ensures var ids := CategoryIds(engine, c, category, filters);
            ShowsFrom(c, ids, from, r.items) && r.total == |ids|
  {
    SliceShows(c, Listed(engine, c, CategoryQuery(category, filters, 1)),
               CategoryIds(engine, c, category, filters), from, r);
  }

  /** What a category page shows; an absent or zero page number means the first page. Page `n` shows positions
    * `(n - 1) * 24` up to `n * 24` of what the category has to show, as long as the offset fits a u32. */
  method CategoryPage(engine: TextEngine, c: Catalog, category: string, filters: seq<FilterCond>,
                      asked: Option<UInt32>)
    returns (page: UInt32, result: SearchResult, hasPrev: bool, hasNext: bool)
    requires Coherent(c)
    ensures page == if asked.None? || asked.value == 0 then 1 else asked.value
    ensures var ids := CategoryIds(engine, c, category, filters);
            && (if NothingRepeated(filters) then CategoryListing(c, category, filters, ids) else ids == [])
            && ShowsFrom(c, ids, Min((page - 1) * 24, 4294967295), result.items)
            && result.total == |ids|
            && (hasNext <==> Min((page - 1) * 24, 4294967295) + |result.items| < |ids|)
            && (hasPrev <==> page > 1)
    ensures var list := Listed(engine, c, CategoryQuery(category, filters, 1));
            && |result.items| == |PageItems(list, page)|
            && (forall i :: 0 <= i < |result.items| ==>
                 && PageItems(list, page)[i].id in c.tables.cards
                 && result.items[i] == ListingCard(c, PageItems(list, page)[i].id))
            && hasNext == HasNext(list, page)
  {
    page := if asked.Some? then Max(asked.value, 1) else 1;
    var offset: UInt32 := PageOffset(page);
    var q := CategoryQuery(category, filters, page);
    ListedIgnoresPage(engine, c, category, filters, page);
    result := Search.Search(engine, c, q);
    CategoryIdsMeaning(engine, c, category, filters);
    PageShows(engine, c, category, filters, offset, result);
    hasPrev := offset > 0;
    hasNext := offset + |result.items| < result.total;
  }

  lemma ListedIgnoresPage(engine: TextEngine, c: Catalog, category: string, filters: seq<FilterCond>, page: UInt32)
    ensures Listed(engine, c, CategoryQuery(category, filters, page))
         == Listed(engine, c, CategoryQuery(category, filters, 1))
  {
    var p, q := CategoryQuery(category, filters, page), CategoryQuery(category, filters, 1);
    assert Found(engine, c, p) == Found(engine, c, q) by {
      forall id | id in c.tables.cards
        ensures Matches(engine, c.tables, p, id) <==> Matches(engine, c.tables, q, id)
      {
      }
    }
  }

  /** What a visitor sees who starts at `page` and follows up to `links` "next" links. */
  datatype Visit<T> = Visit(seen: seq<T>, finished: bool)

  function Follow<T>(list: seq<T>, page: UInt32, links: nat): Visit<T>
    decreases links
  {
    var here := PageItems(list, page);
    if !HasNext(list, page) then Visit(here, true)
    else if links == 0 then Visit(here, false)
    else
      var rest := Follow(list, SaturatingAdd(page, 1), links - 1);
      Visit(here + rest.seen, rest.finished)
  }

  /** The last page before offsets saturate ends here. */
  const BROWSABLE: nat := UINT32_MAX + 9

  /** Once the offset is saturated every page is the same page. */
  lemma {:induction false} SaturatedPagesRepeat<T>(list: seq<T>, page: UInt32, links: nat)
    requires PageOffset(page) == UINT32_MAX && |list| > BROWSABLE
    ensures var v := Follow(list, page, links);
            v.finished ==> |v.seen| > |list| - BROWSABLE
    decreases links
  {
    if HasNext(list, page) && links > 0 {
      SaturatedPagesRepeat(list, SaturatingAdd(page, 1), links - 1);
    }
  }

  lemma {:induction false} FollowFrom<T>(list: seq<T>, page: UInt32, links: nat)
    requires 1 <= page && PageOffset(page) == (page - 1) * DEFAULT_LIMIT <= |list|
    ensures var v, left := Follow(list, page, links), |list| - PageOffset(page);
            && (|list| <= BROWSABLE && links >= left / DEFAULT_LIMIT ==> v == Visit(list[PageOffset(page)..], true))
            && (|list| > BROWSABLE && v.finished ==> |v.seen| > left)
    decreases links
  {
    var from := PageOffset(page);
    if HasNext(list, page) {
      assert PageItems(list, page) == list[from..from + DEFAULT_LIMIT];
      if links > 0 {
        var next := SaturatingAdd(page, 1);
        if page * DEFAULT_LIMIT <= UINT32_MAX {
          FollowFrom(list, next, links - 1);
          assert list[from..] == list[from..from + DEFAULT_LIMIT] + list[from + DEFAULT_LIMIT..];
        } else {
          SaturatedPagesRepeat(list, next, links - 1);
        }
      }
    } else {
      assert PageItems(list, page) == list[from..];
    }
  }

  /** Following "next" from the first page shows every match once, in order, and then stops, exactly when
    * the matches fit in front of the offset's ceiling. */
  lemma BrowsingShowsEverythingOnce<T>(list: seq<T>, links: nat)
    requires links >= |list| / DEFAULT_LIMIT
    ensures Follow(list, 1, links) == Visit(list, true) <==> |list| <= BROWSABLE
  {
    FollowFrom(list, 1, links);
    assert list[0..] == list;
  }
}
