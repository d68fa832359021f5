/** The article controller of the Node API
    (`application/api/controller/active/Article.js`): the same query mapping as
    the activity controller, and the success and failure envelopes of the
    article search. */
module ArticleController {
  import opened Wrappers
  import opened Js
  import opened Sql
  import opened ActiveArticleModel
  import opened ActivityController

  /** A reply of the article search: `{code, msg, data}` with its HTTP status. */
  datatype ArticleReply = ArticleReply(status: int, code: int, msg: string, data: PageResult)

  /** The `data` of a failed search: an empty first page of ten. */
  const FallbackPage: PageResult := PageResult([], IntCell(0), Int(1), Int(10))

  /** Success carries the whole page envelope with code 1; failure carries the
      error message with code 0 and the fallback page. */
  function SearchReply(result: Result<PageResult>): (r: ArticleReply)
    ensures r.status == 200 <==> result.Ok?
    ensures r.code == 1 <==> result.Ok?
    ensures result.Ok? ==> r.msg == "Success" && r.data == result.value
    ensures result.Err? ==> r.status == 500 && r.code == 0 && r.msg == result.message && r.data == FallbackPage
  {
    match result
    case Ok(page) => ArticleReply(200, 1, "Success", page)
    case Err(message) => ArticleReply(500, 0, message, FallbackPage)
  }

  /** `search(req, res)`: map the query, search, wrap the result. */
  method Search(db: Database, prefix: string, query: Params, nowMs: int, zone: int) returns (reply: ArticleReply)
    ensures var params := MapParams(query);
      var ps, paging := AllFilters(params, ArticleCompareText(params, nowMs, zone)), Paginate(params);
      reply == SearchReply(RunListing(db, ArticleCountStatement(prefix, ps), ArticleListStatement(prefix, ps, paging), paging))
  {
    var params := MapParams(query);
    var result := ActiveArticleModel.Search(db, prefix, params, nowMs, zone);
    reply := SearchReply(result);
  }

  /** The fallback page is what a search without paging parameters returns when
      the database holds no row at all: no rows, total 0, page 1, limit 10. */
  lemma FallbackIsEmptyDefaultPage(params: Params)
    requires "page" !in params && "limit" !in params
    ensures FallbackPage == PageResult([], TotalOf([]), Paginate(params).page, Paginate(params).limit)
  {
    PaginateDefaults(params);
  }
}
