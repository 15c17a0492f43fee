/** components/PostListPagination.tsx: the pager under the post list, its page
    links, Previous and Next, and the navigation they trigger. */
module PostListPagination {
  import opened Wrappers
  import opened Text
  import opened SearchParams
  import PostsRoute

  /** What the pager is given. */
  datatype PagerProps = PagerProps(currentPage: int, totalPages: int, hasNextPage: bool, hasPrevPage: bool)

  const PageParam := "page"

  /** The query after moving to `page`: page 1 drops the `page` parameter, any
      other page sets it to its decimal numeral; every other parameter stays,
      in order. */
  function QueryFor(params: Params, page: int): (r: Params)
    ensures Get(r, PageParam) == (if page == 1 then None else Some(IntToString(page)))
    ensures forall n :: n != PageParam ==> Get(r, n) == Get(params, n)
    ensures Delete(r, PageParam) == Delete(params, PageParam)
  {
    if page == 1 then
      DeleteTwice(params, PageParam);
      Delete(params, PageParam)
    else Set(params, PageParam, IntToString(page))
  }

  /** The address for a query: "/" when the query is empty, else "/?" and the query. */
  function Href(params: Params): (url: string)
    ensures url == "/" <==> params == []
    ensures params != [] ==> url == "/?" + Serialize(params)
  {
    var queryString := Serialize(params);
    if queryString != "" then
      assert ("/?" + queryString)[1] == '?';
      "/?" + queryString
    else "/"
  }

  /** `handlePageChange(page)`: navigate only to an existing page, and then to
      the current address with `page` adjusted. None means nothing happens. */
  method HandlePageChange(totalPages: int, searchParams: Params, page: int) returns (target: Option<string>)
    ensures target.Some? <==> 1 <= page <= totalPages
    ensures target.Some? ==> target.value == Href(QueryFor(searchParams, page))
  {
    target := None;
    if page >= 1 && page <= totalPages {
      var params := searchParams;
      if page == 1 {
        params := Delete(params, PageParam);
      } else {
        params := Set(params, PageParam, IntToString(page));
      }
      var queryString := Serialize(params);
      var url := if queryString != "" then "/?" + queryString else "/";
      target := Some(url);
    }
  }

  /** Whatever page the pager moves to, the query it builds reads back as that
      page when parsed the way the listing endpoint parses `page`. */
  lemma PageParamRoundTrip(params: Params, page: int)
    requires page >= 1
    ensures PostsRoute.RequestedPage(QueryFor(params, page)) == Some(page)
  {
    if page == 1 {
      ParseIntOfNatToString(1);
      assert NatToString(1) == "1";
    } else {
      ParseIntOfNatToString(page);
    }
  }

  /** From the plain home address, page 1 leads back to "/" and any later page
      to "/?page=" and its numeral. */
  lemma PagerTargetFromHome(page: int)
    requires page >= 1
    ensures Href(QueryFor([], page)) == (if page == 1 then "/" else "/?page=" + IntToString(page))
  {
    if page != 1 {
      var numeral := IntToString(page);
      var query := QueryFor([], page);
      assert query == [(PageParam, numeral)];
      assert Serialize(query) == "page" + "=" + numeral;
      PageLiterals();
      assert Href(query) == "/?" + ("page=" + numeral);
    }
  }

  /** With other parameters and no `page` yet, moving past page 1 appends
      "&page=" and the numeral to the query, leaving the rest of it as it was. */
  lemma PagerTargetAppendsPage(params: Params, page: int)
    requires params != [] && Get(params, PageParam).None? && page >= 2
    ensures Href(QueryFor(params, page)) == "/?" + Serialize(params) + "&page=" + IntToString(page)
  {
    var numeral := IntToString(page);
    var pair := [(PageParam, numeral)];
    var query := QueryFor(params, page);
    assert query == params + pair;
    SerializeAppend(params, pair);
    assert Serialize(pair) == "page" + "=" + numeral;
    PageLiterals();
    JoinRegroup("/?", Serialize(params), "&", "page=", numeral);
  }

  /** The literal pieces of a page query, joined. */
  lemma PageLiterals()
    ensures "page" + "=" == "page="
    ensures "&" + "page=" == "&page="
    ensures "/?" + "page=" == "/?page="
  {
  }

  /** Regrouping a concatenation of five texts. */
  lemma JoinRegroup(a: string, b: string, c: string, d: string, e: string)
    ensures a + (b + c + (d + e)) == a + b + (c + d) + e
  {
  }

  /** One numbered link of the pager. */
  datatype PageLink = PageLink(page: int, isActive: bool)

  /** The rendered pager: the target of Previous and Next when shown, and the page links. */
  datatype PagerView = PagerView(previous: Option<int>, links: seq<PageLink>, next: Option<int>)

  /** `Array.from({length: totalPages}, (_, i) => i + 1)`, each link active when
      it is the current page. */
  function PageLinks(currentPage: int, totalPages: int): (links: seq<PageLink>)
    ensures |links| == (if totalPages > 0 then totalPages else 0)
    ensures forall i :: 0 <= i < |links| ==> links[i].page == i + 1
    ensures forall i :: 0 <= i < |links| ==> (links[i].isActive <==> i + 1 == currentPage)
  {
    var n := if totalPages > 0 then totalPages else 0;
    seq(n, i requires 0 <= i < n => PageLink(i + 1, i + 1 == currentPage))
  }

  /** Exactly one link is active when the current page exists, none otherwise. */
  lemma ActiveLinks(currentPage: int, totalPages: int)
    ensures var links := PageLinks(currentPage, totalPages);
            (set i | 0 <= i < |links| && links[i].isActive) ==
              (if 1 <= currentPage <= totalPages then {currentPage - 1} else {})
  {
  }

  /** Previous is shown only with `hasPrevPage` and leads to the page before;
      Next only with `hasNextPage`, to the page after. */
  function RenderPager(props: PagerProps): (v: PagerView)
    ensures v.previous.Some? <==> props.hasPrevPage
    ensures v.previous.Some? ==> v.previous.value == props.currentPage - 1
    ensures v.next.Some? <==> props.hasNextPage
    ensures v.next.Some? ==> v.next.value == props.currentPage + 1
    ensures v.links == PageLinks(props.currentPage, props.totalPages)
  {
    PagerView(
      if props.hasPrevPage then Some(props.currentPage - 1) else None,
      PageLinks(props.currentPage, props.totalPages),
      if props.hasNextPage then Some(props.currentPage + 1) else None)
  }

  /** The pagination block of an existing page. */
  predicate Consistent(props: PagerProps) {
    && 1 <= props.currentPage <= props.totalPages
    && (props.hasNextPage <==> props.currentPage < props.totalPages)
    && (props.hasPrevPage <==> props.currentPage > 1)
  }

  /** On an existing page every control the pager shows leads somewhere:
      Previous, Next and each link pass the guard of handlePageChange. */
  lemma EveryControlNavigates(props: PagerProps)
    requires Consistent(props)
    ensures var v := RenderPager(props);
            && (v.previous.Some? ==> 1 <= v.previous.value <= props.totalPages)
            && (v.next.Some? ==> 1 <= v.next.value <= props.totalPages)
            && (forall i :: 0 <= i < |v.links| ==> 1 <= v.links[i].page <= props.totalPages)
  {
  }
}
