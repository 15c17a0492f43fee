/** lib/posts.ts: one page of the ranked listing and its pagination block.
    The same sort/skip/limit/map chain serves app/api/posts/route.ts. */
module Posts {
  import opened Wrappers
  import opened Schemas
  import opened Ranking

  const DefaultPage := 1
  const DefaultLimit := 10

  function Min(a: int, b: int): int {
    if a <= b then a else b
  }

  /** The sort keys of a stored document. */
  function DocKey(d: Doc): RankKey {
    RankKey(d.points, d.submittedAt)
  }

  /** The whole collection in listing order. The store leaves the order of
      posts with equal keys open; this is one such order. */
  function Ranked(docs: seq<Doc>): (r: seq<Doc>)
    ensures SortedBy(r, DocKey)
    ensures multiset(r) == multiset(docs) && |r| == |docs|
  {
    SortBy(docs, DocKey)
  }

  /** How many posts precede page `page`. */
  function Skip(page: int, limit: int): (k: int)
    ensures page >= 1 && limit >= 0 ==> k >= 0
    ensures limit >= 1 ==> (k == 0 <==> page == 1)
  {
    (page - 1) * limit
  }

  /** `Math.ceil(count / limit)`: the fewest pages of `limit` posts that hold `count` posts. */
  function TotalPages(count: nat, limit: int): (pages: nat)
    requires limit >= 1
    ensures (pages - 1) * limit < count <= pages * limit
    ensures pages == 0 <==> count == 0
  {
    var q := (count + limit - 1) / limit;
    assert q * limit <= count + limit - 1 < q * limit + limit;
    q
  }

  /** `.skip(skip).limit(limit)`: at most `limit` items starting at position `skip`,
      none when `skip` is past the end. */
  function Window<T>(s: seq<T>, skip: nat, limit: nat): (r: seq<T>)
    ensures |r| == (if skip >= |s| then 0 else Min(limit, |s| - skip))
    ensures forall i :: 0 <= i < |r| ==> r[i] == s[skip + i]
  {
    if skip >= |s| then [] else s[skip..skip + Min(limit, |s| - skip)]
  }

  /** Page `page` (counting from 1) of `limit` items. */
  function Page<T>(s: seq<T>, page: int, limit: int): (r: seq<T>)
    requires page >= 1 && limit >= 1
    ensures |r| <= limit
    ensures |r| == 0 <==> |s| <= Skip(page, limit)
    ensures forall i :: 0 <= i < |r| ==> Skip(page, limit) + i < |s| && r[i] == s[Skip(page, limit) + i]
  {
    Window(s, Skip(page, limit), limit)
  }

  /** A document as the listing returns it: `votes` defaults to the empty list
      and every other field is kept. */
  function ForResponse(d: Doc): (r: Doc)
    ensures r.votes.Some? && r.votes.value == d.votes.GetOr([])
    ensures r.(votes := d.votes) == d
  {
    d.(votes := Some(d.votes.GetOr([])))
  }

  /** The whole collection in listing order, each document as returned. */
  function Listing(docs: seq<Doc>): (r: seq<Doc>)
    ensures |r| == |docs|
    ensures forall i :: 0 <= i < |r| ==> r[i] == ForResponse(Ranked(docs)[i])
    ensures SortedBy(r, DocKey)
  {
    var ranked := Ranked(docs);
    var r := seq(|ranked|, i requires 0 <= i < |ranked| => ForResponse(ranked[i]));
    assert forall i :: 0 <= i < |r| ==> DocKey(r[i]) == DocKey(ranked[i]);
    r
  }

  /** A slice of a sorted list is sorted. */
  lemma WindowOfSorted<T>(s: seq<T>, skip: nat, limit: nat, key: T -> RankKey)
    requires SortedBy(s, key)
    ensures SortedBy(Window(s, skip, limit), key)
  {
    var w := Window(s, skip, limit);
    forall i, j | 0 <= i < j < |w| ensures RanksAtLeast(key(w[i]), key(w[j])) {
      assert w[i] == s[skip + i] && w[j] == s[skip + j];
    }
  }

  /** `fetchPostsFromDB(page, limit)` over the documents of the collection; an
      absent argument takes its default (page 1, 10 posts). */
  function FetchPostsFromDB(docs: seq<Doc>, page: Option<int>, limit: Option<int>): (r: PostsResponse)
    requires page.GetOr(DefaultPage) >= 1 && limit.GetOr(DefaultLimit) >= 1
    ensures var p, l := page.GetOr(DefaultPage), limit.GetOr(DefaultLimit);
            var info := r.pagination;
            && info.currentPage == p
            && info.totalCount == |docs|
            && (info.totalPages - 1) * l < |docs| <= info.totalPages * l
            && (info.hasNextPage <==> p < info.totalPages)
            && (info.hasPrevPage <==> p > 1)
    ensures var k, l := Skip(page.GetOr(DefaultPage), limit.GetOr(DefaultLimit)), limit.GetOr(DefaultLimit);
            && k >= 0
            && |r.posts| == (if k >= |docs| then 0 else Min(l, |docs| - k))
    ensures r.posts == Page(Listing(docs), page.GetOr(DefaultPage), limit.GetOr(DefaultLimit))
    ensures SortedBy(r.posts, DocKey)
  {
    var p, l := page.GetOr(DefaultPage), limit.GetOr(DefaultLimit);
    var totalCount := |docs|;
    var totalPages := TotalPages(totalCount, l);
    var k := Skip(p, l);
    assert k >= 0;
    var posts := Window(Listing(docs), k, l);
    WindowOfSorted(Listing(docs), k, l, DocKey);
    PostsResponse(posts, PaginationInfo(p, totalPages, totalCount, p < totalPages, p > 1))
  }

  /** Pages `first` to `last` of `s`, one after the other. */
  function PagesFrom<T>(s: seq<T>, limit: int, first: int, last: int): seq<T>
    requires first >= 1 && limit >= 1
    decreases last - first + 1
  {
    if first > last then [] else Page(s, first, limit) + PagesFrom(s, limit, first + 1, last)
  }

  lemma MulMonotone(a: int, b: int, c: nat)
    requires a <= b
    ensures a * c <= b * c
  {
  }

  /** The pages from `first` to the last one hold exactly what follows the
      posts that precede page `first`. */
  lemma {:induction false} PagesFromCoverRest<T>(s: seq<T>, limit: int, first: int)
    requires first >= 1 && limit >= 1 && Skip(first, limit) <= |s|
    ensures PagesFrom(s, limit, first, TotalPages(|s|, limit)) == s[Skip(first, limit)..]
    decreases |s| - Skip(first, limit)
  {
    var tp := TotalPages(|s|, limit);
    var k := Skip(first, limit);
    if first > tp {
      MulMonotone(tp, first - 1, limit);
      assert s[k..] == [];
    } else {
      var next := Skip(first + 1, limit);
      assert next == k + limit;
      if first == tp {
        assert PagesFrom(s, limit, first + 1, tp) == [];
        assert Page(s, first, limit) == s[k..];
      } else {
        MulMonotone(first, tp - 1, limit);
        assert next < |s|;
        PagesFromCoverRest(s, limit, first + 1);
        assert Page(s, first, limit) == s[k..next];
        assert s[k..] == s[k..next] + s[next..];
      }
    }
  }

  /** Pages 1 to totalPages partition the list: their concatenation is the
      list itself, with nothing repeated and nothing skipped. */
  lemma PagesPartition<T>(s: seq<T>, limit: int)
    requires limit >= 1
    ensures PagesFrom(s, limit, 1, TotalPages(|s|, limit)) == s
  {
    PagesFromCoverRest(s, limit, 1);
  }

  /** Every page before the last is full, the last holds the remainder (at
      least one post), and pages past the last are empty. */
  lemma PageSizes<T>(s: seq<T>, page: int, limit: int)
    requires page >= 1 && limit >= 1
    ensures var tp := TotalPages(|s|, limit);
            && (page < tp ==> |Page(s, page, limit)| == limit)
            && (page == tp ==> |Page(s, page, limit)| == |s| - (tp - 1) * limit >= 1)
            && (page > tp ==> Page(s, page, limit) == [])
  {
    var tp := TotalPages(|s|, limit);
    if page < tp {
      MulMonotone(page, tp - 1, limit);
    } else if page > tp {
      MulMonotone(tp, page - 1, limit);
    }
  }

  /** The pages the listing serves, read from 1 to totalPages, give every
      post of the collection exactly once, in listing order. */
  lemma FetchedPagesCoverCollection(docs: seq<Doc>, limit: int)
    requires limit >= 1
    ensures var tp := TotalPages(|docs|, limit);
            && (forall p :: 1 <= p <= tp ==>
                  FetchPostsFromDB(docs, Some(p), Some(limit)).posts == Page(Listing(docs), p, limit))
            && PagesFrom(Listing(docs), limit, 1, tp) == Listing(docs)
            && multiset(Ranked(docs)) == multiset(docs)
  {
    var tp := TotalPages(|docs|, limit);
    forall p | 1 <= p <= tp
      ensures FetchPostsFromDB(docs, Some(p), Some(limit)).posts == Page(Listing(docs), p, limit)
    {
    }
    PagesPartition(Listing(docs), limit);
  }

  /** With 25 posts and 10 per page there are three pages of 10, 10 and 5
      posts, and the third has no next page. */
  lemma TwentyFivePostsMakeThreePages(docs: seq<Doc>)
    requires |docs| == 25
    ensures TotalPages(25, 10) == 3
    ensures |FetchPostsFromDB(docs, Some(1), Some(10)).posts| == 10
    ensures |FetchPostsFromDB(docs, Some(2), Some(10)).posts| == 10
    ensures |FetchPostsFromDB(docs, Some(3), Some(10)).posts| == 5
    ensures !FetchPostsFromDB(docs, Some(3), Some(10)).pagination.hasNextPage
  {
  }
}
