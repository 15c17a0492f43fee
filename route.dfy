/** app/api/posts/route.ts: `GET /api/posts?page=&limit=`, the listing endpoint. */
module PostsRoute {
  import opened Wrappers
  import opened Text
  import opened Schemas
  import opened Ranking
  import opened SearchParams
  import opened Posts

  /** `parseInt(searchParams.get(name) || fallback, 10)`: an absent or empty
      parameter reads as `fallback`; None stands for NaN. */
  function IntParam(params: Params, name: string, fallback: string): Option<int> {
    var raw := Get(params, name);
    ParseInt(if raw.None? || raw.value == "" then fallback else raw.value)
  }

  /** The `page` the request asks for (default "1"). */
  function RequestedPage(params: Params): (r: Option<int>)
    ensures Get(params, "page").None? || Get(params, "page").value == "" ==> r == Some(1)
    ensures Get(params, "page").Some? && Get(params, "page").value != "" ==>
              r == ParseInt(Get(params, "page").value)
  {
    DefaultsParse();
    IntParam(params, "page", "1")
  }

  /** The `limit` the request asks for (default "10"). */
  function RequestedLimit(params: Params): (r: Option<int>)
    ensures Get(params, "limit").None? || Get(params, "limit").value == "" ==> r == Some(10)
    ensures Get(params, "limit").Some? && Get(params, "limit").value != "" ==>
              r == ParseInt(Get(params, "limit").value)
  {
    DefaultsParse();
    IntParam(params, "limit", "10")
  }

  /** The requests the model covers: both parameters read as positive integers. */
  predicate PositivePaging(params: Params) {
    && RequestedPage(params).Some? && RequestedPage(params).value >= 1
    && RequestedLimit(params).Some? && RequestedLimit(params).value >= 1
  }

  /** A response: the JSON listing, or an error status with its body. */
  datatype Response =
    | JsonListing(body: PostsResponse)
    | ErrorResponse(status: int, error: string)

  /** `GET`. `storeAvailable` false stands for any failure of the store, which
      the handler turns into status 500 with no posts. Otherwise the handler
      runs the same count, sort, skip, limit and map as lib/posts.ts on the
      parsed page and limit. */
  function HandleGet(docs: seq<Doc>, params: Params, storeAvailable: bool): (r: Response)
    requires PositivePaging(params)
    ensures !storeAvailable <==> r == ErrorResponse(500, "Internal server error")
    ensures storeAvailable ==>
              r == JsonListing(FetchPostsFromDB(docs, RequestedPage(params), RequestedLimit(params)))
  {
    if storeAvailable then
      var page, limit := RequestedPage(params).value, RequestedLimit(params).value;
      JsonListing(FetchPostsFromDB(docs, Some(page), Some(limit)))
    else ErrorResponse(500, "Internal server error")
  }

  /** A request without `page` and `limit` gets the first page of ten posts. */
  lemma AbsentParamsMeanFirstPageOfTen(params: Params)
    requires Get(params, "page").None? && Get(params, "limit").None?
    ensures RequestedPage(params) == Some(1) && RequestedLimit(params) == Some(10)
  {
    DefaultsParse();
  }

  /** The two fallback strings read as the numbers they spell. */
  lemma DefaultsParse()
    ensures ParseInt("1") == Some(1) && ParseInt("10") == Some(10)
  {
    assert NatToString(1) == "1" by {
      assert NatToString(1) == [DigitChar(1)];
    }
    ParseIntOfNatToString(1);
    assert NatToString(10) == "10" by {
      assert NatToString(10) == NatToString(1) + [DigitChar(0)];
    }
    ParseIntOfNatToString(10);
  }
}
