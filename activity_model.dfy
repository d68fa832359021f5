/** The activity listing of the Node API (`models/Activity.js`): the WHERE
    predicates built from the query parameters, the count and list statements
    that share them, and the `register` update of the reward table. */
module ActivityModel {
  import opened Strings
  import opened Wrappers
  import opened Js
  import opened DbConfig
  import opened Sql
  import opened Collections

  /** `Number.MAX_SAFE_INTEGER`, the default upper bound of a creation range. */
  const MaxSafeInteger: int := 9007199254740991

  // ---------------------------------------------------------------------------
  // The predicate groups. The article listing reuses all but the status one.

  /** The status predicate: `String(status)` when the parameter is present and
      not the empty text, `'normal'` otherwise. */
  function StatusFilter(params: Params): (p: Predicate)
    ensures p.Equals? && p.column == "ac.status"
    ensures "status" in params && params["status"] != Text("") ==> p.value == SqlText(ToText(params["status"]))
    ensures !("status" in params && params["status"] != Text("")) ==> p.value == SqlText("normal")
  {
    var status :=
      match Get(params, "status")
      case Some(v) => if v != Text("") then ToText(v) else "normal"
      case None => "normal";
    Equals("ac.status", SqlText(status))
  }

  /** `if (params[key])`: a `column LIKE %value%` predicate for a truthy parameter. */
  function LikeFilter(params: Params, key: string, column: string): (r: seq<Predicate>)
    ensures |r| <= 1
    ensures |r| == 1 <==> key in params && Truthy(params[key])
    ensures r != [] ==> r[0] == Like(column, ToText(params[key]))
  {
    match Get(params, key)
    case Some(v) => if Truthy(v) then [Like(column, ToText(v))] else []
    case None => []
  }

  const CreateColumn: string := "ac.createtime"

  /** The range or equality on the creation time read from one parameter: an
      array of two or more items gives the range of its first two items, a text
      with a comma gives the range of its first two comma-separated parts, and
      anything else is compared for equality after `parseInt`. */
  function CreatedPredicate(ct: QueryValue): Predicate
  {
    match ct
    case List(items) =>
      if |items| >= 2 then Between(CreateColumn, ParseInt(items[0]), ParseInt(items[1]))
      else Equals(CreateColumn, SqlNumber(ParseIntValue(ct)))
    case Text(s) =>
      if ',' in s then
        var rest := FieldAfter(s, ',');
        Between(CreateColumn, ParseInt(FieldBefore(s, ',')), ParseInt(FieldBefore(rest, ',')))
      else Equals(CreateColumn, SqlNumber(ParseIntValue(ct)))
    case Number(_) => Equals(CreateColumn, SqlNumber(ParseIntValue(ct)))
  }

  /** The creation predicate, added when the parameter is present and not the
      empty text. */
  function CreatedFilter(params: Params, key: string): (r: seq<Predicate>)
    ensures |r| <= 1
    ensures |r| == 1 <==> key in params && params[key] != Text("")
    ensures r != [] ==> r[0] == CreatedPredicate(params[key])
  {
    match Get(params, key)
    case Some(ct) => if ct != Text("") then [CreatedPredicate(ct)] else []
    case None => []
  }

  /** `a ?? b`: the first present parameter. */
  function FirstPresent(a: Option<QueryValue>, b: Option<QueryValue>): (r: Option<QueryValue>)
    ensures r.None? <==> a.None? && b.None?
    ensures a.Some? ==> r == a
  {
    if a.Some? then a else b
  }

  /** The explicit creation range: `createtime_start ?? starttime` and
      `createtime_end ?? endtime`; a missing start is 0 and a missing end is
      `MAX_SAFE_INTEGER`; with neither bound given there is no predicate. */
  function BoundsFilter(params: Params): (r: seq<Predicate>)
    ensures |r| <= 1
  {
    var start := FirstPresent(Get(params, "createtime_start"), Get(params, "starttime"));
    var end := FirstPresent(Get(params, "createtime_end"), Get(params, "endtime"));
    if start.None? && end.None? then []
    else
      var low := if start.Some? then ParseIntValue(start.value) else Int(0);
      var high := if end.Some? then ParseIntValue(end.value) else Int(MaxSafeInteger);
      [Between(CreateColumn, low, high)]
  }

  /** The compare time a caller asks for: a numeric `compare_time`, else a
      numeric `createtime`, each read with `parseInt`; nothing otherwise. */
  function CompareOverride(params: Params): (r: Option<Num>)
    ensures r.None? <==>
      ("compare_time" !in params || IsNaN(params["compare_time"])) && ("createtime" !in params || IsNaN(params["createtime"]))
    ensures "compare_time" in params && !IsNaN(params["compare_time"]) ==> r == Some(ParseIntValue(params["compare_time"]))
    ensures r.Some? && !("compare_time" in params && !IsNaN(params["compare_time"])) ==>
      r == Some(ParseIntValue(params["createtime"]))
  {
    if "compare_time" in params && !IsNaN(params["compare_time"]) then Some(ParseIntValue(params["compare_time"]))
    else if "createtime" in params && !IsNaN(params["createtime"]) then Some(ParseIntValue(params["createtime"]))
    else None
  }

  /** The bound of the expiration predicate: the requested compare time, else
      `Date.now() / 1000` (not floored), both through `formatDateTimeFromUnix`. */
  function CompareText(params: Params, nowMs: int, zone: int): (r: string)
    ensures CompareOverride(params).Some? ==> r == FormatDateTimeFromUnix(CompareOverride(params).value, zone)
    ensures CompareOverride(params).None? && ValidMs(nowMs) ==> r == FormatDateTimeFromUnix(Int(nowMs / 1000), zone)
  {
    match CompareOverride(params)
    case Some(seconds) => FormatDateTimeFromUnix(seconds, zone)
    case None =>
      var text := FormatDateTime(Int(nowMs), zone);
      if ValidMs(nowMs) then MillisecondsDropped(nowMs, zone); text else text
  }

  /** The predicates ps followed by those on the activity table, in the order
      they are pushed: location, creation (read from `createdKey`), explicit
      range, expiration. */
  function WithActivityGroup(ps: seq<Predicate>, params: Params, createdKey: string, compare: string): seq<Predicate>
  {
    ps + LikeFilter(params, "location", "ac.location") + CreatedFilter(params, createdKey)
      + BoundsFilter(params) + [After("ac.expirationtime", compare)]
  }

  /** The predicates of the activity listing, for the expiration bound
      `compare` (`CompareText` of the same parameters). */
  function Filters(params: Params, compare: string): (r: seq<Predicate>)
    ensures 2 <= |r| <= 5
    ensures r[0] == StatusFilter(params) && r[|r| - 1] == After("ac.expirationtime", compare)
  {
    WithActivityGroup([StatusFilter(params)], params, "createtime", compare)
  }

  // ---------------------------------------------------------------------------
  // Building the clause and value lists.

  /** `clauses.push(text); values.push(...binds)` for one predicate. */
  lemma PushOne(ps: seq<Predicate>, p: Predicate)
    ensures Texts(ps + [p]) == Texts(ps) + [ClauseText(p)]
    ensures Bindings(ps + [p]) == Bindings(ps) + Binds(p)
  {
    TextsAppend(ps, [p]);
    assert Bindings([p]) == Binds(p) + Bindings([]);
  }

  /** Pushing a group of zero or one predicates. */
  method PushAll(clauses: seq<string>, values: seq<SqlValue>, ghost ps: seq<Predicate>, group: seq<Predicate>)
    returns (clauses': seq<string>, values': seq<SqlValue>)
    requires |group| <= 1
    requires clauses == Texts(ps) && values == Bindings(ps)
    ensures clauses' == Texts(ps + group) && values' == Bindings(ps + group)
  {
    if group == [] {
      assert ps + group == ps;
      clauses', values' := clauses, values;
    } else {
      PushOne(ps, group[0]);
      assert group == [group[0]];
      clauses', values' := clauses + [ClauseText(group[0])], values + Binds(group[0]);
    }
  }

  /** The pushes of the activity group, after whatever `clauses` and `values`
      already hold. */
  method PushActivityGroup(clauses: seq<string>, values: seq<SqlValue>, ghost ps: seq<Predicate>,
                           params: Params, createdKey: string, compare: string)
    returns (clauses': seq<string>, values': seq<SqlValue>)
    requires clauses == Texts(ps) && values == Bindings(ps)
    ensures clauses' == Texts(WithActivityGroup(ps, params, createdKey, compare))
    ensures values' == Bindings(WithActivityGroup(ps, params, createdKey, compare))
  {
    var location := LikeFilter(params, "location", "ac.location");
    var created := CreatedFilter(params, createdKey);
    var bounds := BoundsFilter(params);
    var expiration := After("ac.expirationtime", compare);
    clauses', values' := PushAll(clauses, values, ps, location);
    clauses', values' := PushAll(clauses', values', ps + location, created);
    clauses', values' := PushAll(clauses', values', ps + location + created, bounds);
    PushOne(ps + location + created + bounds, expiration);
    clauses', values' := clauses' + [ClauseText(expiration)], values' + Binds(expiration);
  }

  /** `buildWhereClauses(params)`: the clauses and values pushed one predicate at
      a time, in the order of `Filters`. */
  method BuildWhereClauses(params: Params, nowMs: int, zone: int) returns (clauses: seq<string>, values: seq<SqlValue>)
    ensures clauses == Texts(Filters(params, CompareText(params, nowMs, zone)))
    ensures values == Bindings(Filters(params, CompareText(params, nowMs, zone)))
  {
    var status := StatusFilter(params);
    PushOne([], status);
    clauses, values := [ClauseText(status)], Binds(status);
    clauses, values := PushActivityGroup(clauses, values, [status], params, "createtime", CompareText(params, nowMs, zone));
  }

  // ---------------------------------------------------------------------------
  // The statements and the search.

  /** The text of the count statement up to its WHERE clause. */
  function CountHead(prefix: string): string
  {
    "SELECT COUNT(*) AS cnt FROM " + GetTable(prefix, "activity") + " ac "
  }

  /** The reward columns a listed row carries, renamed where they clash with
      the activity's own. */
  const RewardColumns: seq<string> := [
    "ar.id AS reward_id", "ar.registration_fee", "ar.participant_count",
    "ar.havemoney AS reward_havemoney", "ar.status AS reward_status"]

  /** The columns of a listed row: every activity column and the reward columns. */
  const ListColumns: seq<string> := ["ac.*"] + RewardColumns

  /** The left join that attaches the reward row of each activity. */
  function JoinSql(prefix: string): string
  {
    "LEFT JOIN " + GetTable(prefix, "activity_reward") + " ar ON ar.activity_id = ac.id"
  }

  /** The text of the list statement up to its WHERE clause. */
  function ListHead(prefix: string): string
  {
    "SELECT " + Join(ListColumns, ", ") + " FROM " + GetTable(prefix, "activity") + " ac " + JoinSql(prefix) + " "
  }

  const ListOrder: string := " ORDER BY ac.id DESC"

  /** The count statement binds exactly the WHERE values. */
  function CountStatement(prefix: string, ps: seq<Predicate>): Statement
  {
    Statement(CountHead(prefix) + WhereSql(Texts(ps)), Bindings(ps))
  }

  /** The list statement binds the WHERE values followed by limit and offset. */
  function ListStatement(prefix: string, ps: seq<Predicate>, paging: Paging): Statement
  {
    Statement(ListHead(prefix) + WhereSql(Texts(ps)) + ListOrder + LimitOffset,
              Bindings(ps) + [SqlNumber(paging.limit), SqlNumber(paging.offset)])
  }

  /** `search(params)`: page and limit, the clauses, the count statement and the
      list statement; a rejection of either statement rejects the search. */
  method Search(db: Database, prefix: string, params: Params, nowMs: int, zone: int) returns (r: Result<PageResult>)
    ensures var ps, paging := Filters(params, CompareText(params, nowMs, zone)), Paginate(params);
      r == RunListing(db, CountStatement(prefix, ps), ListStatement(prefix, ps, paging), paging)
  {
    var paging := Paginate(params);
    var clauses, values := BuildWhereClauses(params, nowMs, zone);
    var whereSql := WhereSql(clauses);
    var count := Statement(CountHead(prefix) + whereSql, values);
    var list := Statement(ListHead(prefix) + whereSql + ListOrder + LimitOffset,
                          values + [SqlNumber(paging.limit), SqlNumber(paging.offset)]);
    r := RunListing(db, count, list, paging);
  }

  // ---------------------------------------------------------------------------
  // Registration.

  /** A row of the reward table; the three amounts may be NULL. */
  datatype RewardRow = RewardRow(
    id: int, activityId: int,
    registrationFee: Option<int>, participantCount: Option<int>, havemoney: Option<int>,
    status: string)

  /** The row `register` selects afterwards, with its columns renamed. */
  datatype RewardView = RewardView(
    rewardId: int, registrationFee: Option<int>, participantCount: Option<int>,
    rewardHavemoney: Option<int>, rewardStatus: string)

  /** `COALESCE(x, 0)`. */
  function OrZero(x: Option<int>): int
  {
    if x.Some? then x.value else 0
  }

  /** The SET list of the update: one more participant, and the registration fee
      (NULL read as 0) added to the collected money (NULL read as 0). */
  function Bump(r: RewardRow): (b: RewardRow)
    ensures b.id == r.id && b.activityId == r.activityId
    ensures b.registrationFee == r.registrationFee && b.status == r.status
    ensures b.participantCount.Some? && b.havemoney.Some?
  {
    r.(participantCount := Some(OrZero(r.participantCount) + 1),
       havemoney := Some(OrZero(r.havemoney) + OrZero(r.registrationFee)))
  }

  /** The table after `UPDATE ... WHERE ar.activity_id = ?`: every row of the
      activity is bumped, the others are untouched. */
  function Registered(rows: seq<RewardRow>, activityId: int): (r: seq<RewardRow>)
    ensures |r| == |rows|
  {
    seq(|rows|, i requires 0 <= i < |rows| => if rows[i].activityId == activityId then Bump(rows[i]) else rows[i])
  }

  function View(r: RewardRow): RewardView
  {
    RewardView(r.id, r.registrationFee, r.participantCount, r.havemoney, r.status)
  }

  /** `WHERE ar.activity_id = ?`. */
  function ForActivity(activityId: int): RewardRow -> bool
  {
    (row: RewardRow) => row.activityId == activityId
  }

  /** `SELECT ... WHERE ar.activity_id = ? LIMIT 1` and `rows[0] || null`: the
      first row of the activity in table order, or nothing. */
  function FirstFor(rows: seq<RewardRow>, activityId: int): (r: Option<RewardView>)
    ensures r.None? <==> forall i | 0 <= i < |rows| :: rows[i].activityId != activityId
  {
    match Find(rows, ForActivity(activityId))
    case Some(row) => Some(View(row))
    case None => None
  }

  /** The reward table `register` works on. */
  class RewardTable {
    var rows: seq<RewardRow>

    constructor (rows: seq<RewardRow>)
      ensures this.rows == rows
    {
      this.rows := rows;
    }

    /** `register(activityId)`: the update, then the select of the updated row. */
    method Register(activityId: int) returns (updated: Option<RewardView>)
      modifies this
      ensures rows == Registered(old(rows), activityId)
      ensures updated == FirstFor(rows, activityId)
    {
      rows := Registered(rows, activityId);
      updated := FirstFor(rows, activityId);
    }
  }
}
