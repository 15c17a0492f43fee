/** components/PostListServer.tsx: one page of ten ranked posts, each numbered
    by its place in the whole ranking, with the pager when there is more than
    one page. */
module PostListServer {
  import opened Wrappers
  import opened Schemas
  import opened Posts
  import opened PostListPagination

  const PageSize := 10

  /** A post as listed, with its number. */
  datatype Item = Item(post: Doc, globalIndex: int)

  /** What the list shows: the "No posts yet" message, or the numbered posts and
      the pager if any. */
  datatype View = NoPosts | PostsView(items: seq<Item>, pager: Option<PagerProps>)

  /** `(page - 1) * 10 + index + 1`. */
  function GlobalIndex(page: int, index: int): (n: int)
    ensures n == Skip(page, PageSize) + index + 1
    ensures page >= 1 && index >= 0 ==> n >= 1
  {
    (page - 1) * PageSize + index + 1
  }

  /** `PostListServer({page})` over the documents of the collection (`page`
      absent means 1). The listing is read through `getPosts(page, 10)`. */
  function Render(docs: seq<Doc>, page: Option<int>): (v: View)
    requires page.GetOr(1) >= 1
    ensures var p, tp := page.GetOr(1), TotalPages(|docs|, PageSize);
            && (v.NoPosts? <==> p > tp)
            && (v.PostsView? ==>
                  && |v.items| == Min(PageSize, |docs| - Skip(p, PageSize)) >= 1
                  && NumberedFromListing(docs, p, v.items)
                  && (v.pager.Some? <==> tp > 1)
                  && (v.pager.Some? ==> v.pager.value == PagerProps(p, tp, p < tp, p > 1)))
  {
    var p := page.GetOr(1);
    var response := FetchPostsFromDB(docs, Some(p), Some(PageSize));
    PageSizes(Listing(docs), p, PageSize);
    if |response.posts| == 0 then NoPosts
    else
      var items := Numbered(response.posts, p);
      PageItemsAreListed(docs, p, response.posts, items);
      var info := response.pagination;
      var pager := if info.totalPages > 1 then
                     Some(PagerProps(info.currentPage, info.totalPages, info.hasNextPage, info.hasPrevPage))
                   else None;
      PostsView(items, pager)
  }

  /** `posts.map((post, index) => ... globalIndex ...)`. */
  function Numbered(posts: seq<Doc>, page: int): (items: seq<Item>)
    ensures |items| == |posts|
    ensures forall i :: 0 <= i < |items| ==> items[i] == Item(posts[i], GlobalIndex(page, i))
  {
    seq(|posts|, i requires 0 <= i < |posts| => Item(posts[i], GlobalIndex(page, i)))
  }

  /** Each item carries its number on page `p`, a position of the listing,
      and the post at that position. */
  predicate NumberedFromListing(docs: seq<Doc>, p: int, items: seq<Item>) {
    forall i :: 0 <= i < |items| ==>
      && items[i].globalIndex == GlobalIndex(p, i)
      && 1 <= items[i].globalIndex <= |docs|
      && items[i].post == Listing(docs)[items[i].globalIndex - 1]
  }

  lemma PageItemsAreListed(docs: seq<Doc>, p: int, posts: seq<Doc>, items: seq<Item>)
    requires p >= 1
    requires posts == Page(Listing(docs), p, PageSize)
    requires items == Numbered(posts, p)
    ensures NumberedFromListing(docs, p, items)
  {
    var k, listed := Skip(p, PageSize), Listing(docs);
    assert |listed| == |docs| && k >= 0;
    forall i | 0 <= i < |items|
      ensures && items[i].globalIndex == GlobalIndex(p, i)
              && 1 <= items[i].globalIndex <= |docs|
              && items[i].post == listed[items[i].globalIndex - 1]
    {
      assert items[i] == Item(posts[i], GlobalIndex(p, i));
      assert k + i < |listed| && posts[i] == listed[k + i];
    }
  }

  /** The numbers passed to the items of page `page`. */
  function Numbers(docs: seq<Doc>, page: int): seq<int>
    requires page >= 1
  {
    var v := Render(docs, Some(page));
    if v.NoPosts? then [] else IndicesOf(v.items)
  }

  function IndicesOf(items: seq<Item>): (r: seq<int>)
    ensures |r| == |items| && forall i :: 0 <= i < |items| ==> r[i] == items[i].globalIndex
  {
    seq(|items|, i requires 0 <= i < |items| => items[i].globalIndex)
  }

  /** The numbers passed to the items of pages `first` to `last`, one page after the other. */
  function NumbersFrom(docs: seq<Doc>, first: int, last: int): seq<int>
    requires first >= 1
    decreases last - first + 1
  {
    if first > last then [] else Numbers(docs, first) + NumbersFrom(docs, first + 1, last)
  }

  /** 1, 2, ..., n. */
  function OneTo(n: nat): (r: seq<int>)
    ensures |r| == n && forall i :: 0 <= i < n ==> r[i] == i + 1
  {
    seq(n, i requires 0 <= i < n => i + 1)
  }

  /** Page `page` numbers its posts as the same page of 1..n. */
  lemma NumbersArePageOfPositions(docs: seq<Doc>, page: int)
    requires page >= 1
    ensures Numbers(docs, page) == Page(OneTo(|docs|), page, PageSize)
  {
    var ones := OneTo(|docs|);
    var pg := Page(ones, page, PageSize);
    var nums := Numbers(docs, page);
    var v := Render(docs, Some(page));
    if v.NoPosts? {
      assert page > TotalPages(|docs|, PageSize);
      PageSizes(ones, page, PageSize);
    } else {
      assert |nums| == |v.items|;
      assert |pg| == |nums|;
      forall i | 0 <= i < |nums|
        ensures nums[i] == pg[i]
      {
        assert nums[i] == v.items[i].globalIndex == GlobalIndex(page, i);
        assert pg[i] == ones[Skip(page, PageSize) + i];
      }
    }
  }

  lemma {:induction false} NumbersFromArePages(docs: seq<Doc>, first: int, last: int)
    requires first >= 1
    ensures NumbersFrom(docs, first, last) == PagesFrom(OneTo(|docs|), PageSize, first, last)
    decreases last - first + 1
  {
    if first <= last {
      var ones := OneTo(|docs|);
      NumbersArePageOfPositions(docs, first);
      NumbersFromArePages(docs, first + 1, last);
      assert NumbersFrom(docs, first, last) == Numbers(docs, first) + NumbersFrom(docs, first + 1, last);
      assert PagesFrom(ones, PageSize, first, last)
             == Page(ones, first, PageSize) + PagesFrom(ones, PageSize, first + 1, last);
    }
  }

  /** Across pages 1 to totalPages the numbers passed are exactly 1..totalCount,
      in order. */
  lemma NumberingCoversAll(docs: seq<Doc>)
    ensures NumbersFrom(docs, 1, TotalPages(|docs|, PageSize)) == OneTo(|docs|)
  {
    NumbersFromArePages(docs, 1, TotalPages(|docs|, PageSize));
    PagesPartition(OneTo(|docs|), PageSize);
  }

  /** The pager is only shown for an existing page, with props that agree with
      each other, so every control on it passes the guard of handlePageChange. */
  lemma ShownPagerIsConsistent(docs: seq<Doc>, page: Option<int>)
    requires page.GetOr(1) >= 1
    ensures var v := Render(docs, page);
            v.PostsView? && v.pager.Some? ==> Consistent(v.pager.value)
  {
  }
}
