/** The activity controller of the Node API
    (`application/api/controller/Activity.js`): the query mapping shared with
    the article controller, the listing envelope and the register handler. */
module ActivityController {
  import opened Wrappers
  import opened Strings
  import opened Js
  import opened DbConfig
  import opened Sql
  import opened ActivityModel

  // ---------------------------------------------------------------------------
  // Query mapping.

  /** `params.createtime && !isNaN(params.createtime)`: a numeric creation time
      is meant as the compare time. */
  predicate MovesCreatetime(query: Params)
  {
    "createtime" in query && Truthy(query["createtime"]) && !IsNaN(query["createtime"])
  }

  /** `mapParams(query)`: a copy of the query in which a numeric `createtime`
      becomes `compare_time = parseInt(createtime, 10)` and is deleted. The copy
      is a new value, so the caller's query is never changed. */
  function MapParams(query: Params): (params: Params)
    ensures !MovesCreatetime(params)
    ensures forall k | k in query && k != "createtime" && k != "compare_time" :: k in params && params[k] == query[k]
    ensures forall k | k in params && k != "compare_time" :: k in query
  {
    if MovesCreatetime(query) then
      var parsed := Number(ParseIntValue(query["createtime"]));
      Moved(query, parsed);
      (query - {"createtime"})["compare_time" := parsed]
    else query
  }

  /** Replacing `createtime` by a `compare_time` keeps every other key. */
  lemma Moved(query: Params, v: QueryValue)
    ensures var m := (query - {"createtime"})["compare_time" := v];
      && "createtime" !in m
      && (forall k | k in query && k != "createtime" && k != "compare_time" :: k in m && m[k] == query[k])
      && forall k | k in m && k != "compare_time" :: k in query
  {
  }

  /** A numeric `createtime` is moved: it is gone, `compare_time` holds its
      parsed value (replacing any `compare_time` the caller sent), and every
      other parameter is kept. */
  lemma MapParamsMoves(query: Params)
    requires MovesCreatetime(query)
    ensures "createtime" !in MapParams(query)
    ensures "compare_time" in MapParams(query)
    ensures MapParams(query)["compare_time"] == Number(ParseIntValue(query["createtime"]))
    ensures forall k | k != "createtime" && k != "compare_time" ::
      (k in MapParams(query) <==> k in query) && (k in query ==> MapParams(query)[k] == query[k])
  {
  }

  /** Any other query is passed on as it is; for instance `createtime=1,2` still
      reaches the range branch of the listing. */
  lemma MapParamsKeeps(query: Params)
    requires !MovesCreatetime(query)
    ensures MapParams(query) == query
  {
  }

  /** A range text is never moved. */
  lemma RangeKept(query: Params, range: string)
    requires "createtime" in query && query["createtime"] == Text(range) && ',' in range
    ensures MapParams(query) == query
  {
    CommaNotNumber(range);
  }

  /** Mapping twice is mapping once. */
  lemma MapParamsIdempotent(query: Params)
    ensures MapParams(MapParams(query)) == MapParams(query)
  {
  }

  /** A parsed number stays what it is when parsed again. */
  lemma ReparseNumber(v: QueryValue)
    requires ParseIntValue(v).Int?
    ensures !IsNaN(Number(ParseIntValue(v)))
    ensures ParseIntValue(Number(ParseIntValue(v))) == ParseIntValue(v)
  {
    ParseIntRendered(ParseIntValue(v).value);
  }

  /** Moving `createtime` keeps the compare time the listing would have used
      when the caller sent no `compare_time`; when the caller sent one, the
      moved `createtime` replaces it. Either way the moved value no longer
      filters the creation time. */
  lemma MapParamsCompare(query: Params, nowMs: int, zone: int)
    requires MovesCreatetime(query)
    requires ParseIntValue(query["createtime"]).Int?
    ensures CompareText(MapParams(query), nowMs, zone) == FormatDateTimeFromUnix(ParseIntValue(query["createtime"]), zone)
    ensures "compare_time" !in query ==> CompareText(MapParams(query), nowMs, zone) == CompareText(query, nowMs, zone)
    ensures CreatedFilter(MapParams(query), "createtime") == []
  {
    ReparseNumber(query["createtime"]);
    MapParamsMoves(query);
  }

  // ---------------------------------------------------------------------------
  // Envelopes.

  /** `meta` of a listing reply. */
  datatype Meta = Meta(total: Cell, page: Num, limit: Num)

  /** The `data` of a reply: listed rows, a reward row, or `null`. */
  datatype Data = Rows(rows: seq<Row>) | Reward(view: RewardView) | Null

  /** A JSON reply with its HTTP status: `{code, msg, data, meta?}`. */
  datatype Reply = Reply(status: int, code: int, msg: string, data: Data, meta: Option<Meta>)

  /** The reply of `getActivity`: the rows with their paging on success, an
      error reply with no rows when the search rejects. */
  function ListingReply(result: Result<PageResult>): (r: Reply)
    ensures r.code == r.status && (r.status == 200 <==> result.Ok?)
    ensures result.Ok? ==> r.msg == "success" && r.data == Rows(result.value.list)
    ensures result.Ok? ==> r.meta == Some(Meta(result.value.total, result.value.page, result.value.limit))
    ensures result.Err? ==> r.status == 500 && r.msg == result.message && r.data == Rows([]) && r.meta.None?
  {
    match result
    case Ok(page) => Reply(200, 200, "success", Rows(page.list), Some(Meta(page.total, page.page, page.limit)))
    case Err(message) => Reply(500, 500, message, Rows([]), None)
  }

  /** `getActivity(req, res)`: map the query, search, wrap the result. */
  method GetActivity(db: Database, prefix: string, query: Params, nowMs: int, zone: int) returns (reply: Reply)
    ensures var params := MapParams(query);
      var ps, paging := Filters(params, CompareText(params, nowMs, zone)), Paginate(params);
      reply == ListingReply(RunListing(db, CountStatement(prefix, ps), ListStatement(prefix, ps, paging), paging))
  {
    var params := MapParams(query);
    var result := Search(db, prefix, params, nowMs, zone);
    reply := ListingReply(result);
  }

  // ---------------------------------------------------------------------------
  // Registration.

  /** `parseInt(activity_id, 10)` of `req.body || {}`; a missing id parses
      `"undefined"`, which is NaN. */
  function ActivityId(body: Option<Params>): Num
  {
    var params := if body.Some? then body.value else map[];
    match Get(params, "activity_id")
    case Some(v) => ParseIntValue(v)
    case None => NaN
  }

  /** `!id || isNaN(id)` rejects NaN and 0; negative ids pass. */
  predicate AcceptedId(id: Num): (ok: bool)
    ensures ok <==> Truthy(Number(id)) && !IsNaN(Number(id))
  {
    id.Int? && id.value != 0
  }

  const InvalidId: Reply := Reply(400, 400, "Invalid activity_id", Null, None)

  /** The reply of a register call that reached the model: the refreshed row,
      `null` when the activity has no reward row, or the error message. */
  function RegisterReply(updated: Result<Option<RewardView>>): (r: Reply)
    ensures r.code == r.status && r.meta.None?
    ensures r.status == 200 <==> updated.Ok?
    ensures updated.Ok? ==> r.msg == "success" && (r.data == Null <==> updated.value.None?)
    ensures updated.Ok? && updated.value.Some? ==> r.data == Reward(updated.value.value)
    ensures updated.Err? ==> r.status == 500 && r.data == Null && r.msg == updated.message
  {
    match updated
    case Ok(Some(view)) => Reply(200, 200, "success", Reward(view), None)
    case Ok(None) => Reply(200, 200, "success", Null, None)
    case Err(message) => Reply(500, 500, message, Null, None)
  }

  /** `register(req, res)`: an unusable id is refused before the table is
      touched; `failure` is the error the database raises, if any, in which
      case nothing is updated; otherwise the model registers and its row is
      returned. */
  method Register(table: RewardTable, body: Option<Params>, failure: Option<string>) returns (reply: Reply)
    modifies table
    ensures !AcceptedId(ActivityId(body)) ==> reply == InvalidId && table.rows == old(table.rows)
    ensures AcceptedId(ActivityId(body)) && failure.Some? ==>
      reply == RegisterReply(Err(failure.value)) && table.rows == old(table.rows)
    ensures AcceptedId(ActivityId(body)) && failure.None? ==>
      table.rows == Registered(old(table.rows), ActivityId(body).value)
      && reply == RegisterReply(Ok(FirstFor(table.rows, ActivityId(body).value)))
  {
    var id := ActivityId(body);
    if !AcceptedId(id) {
      return InvalidId;
    }
    if failure.Some? {
      return RegisterReply(Err(failure.value));
    }
    var updated := table.Register(id.value);
    reply := RegisterReply(Ok(updated));
  }

  /** A body without `activity_id`, or no body at all, is refused; an id sent as
      the text of n is accepted exactly when n is not 0, negative ids included. */
  lemma IdCheck(n: int)
    ensures !AcceptedId(ActivityId(None))
    ensures !AcceptedId(ActivityId(Some(map[])))
    ensures AcceptedId(ActivityId(Some(map["activity_id" := Text(IntToString(n))]))) <==> n != 0
  {
    ParseIntRendered(n);
  }

  /** `parseInt` reads the leading digits only, so `"7x"` registers activity 7. */
  lemma TrailingJunkAccepted()
    ensures ActivityId(Some(map["activity_id" := Text("7x")])) == Int(7)
  {
    assert "7x" == "7" + "x";
    ParseDigitsThenText("7", "x");
    assert DigitsValue("7") == 7;
  }
}
