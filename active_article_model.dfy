/** The article listing of the Node API (`models/ActiveArticle.js`): the
    article predicates and, in a second group, the activity predicates of the
    activity listing (without its status predicate), joined into one WHERE
    clause over articles left-joined to their activity and its reward row. */
module ActiveArticleModel {
  import opened Strings
  import opened Wrappers
  import opened Js
  import opened DbConfig
  import opened Sql
  import opened ActivityModel

  // ---------------------------------------------------------------------------
  // The predicates.

  /** `params.tickets !== undefined && params.tickets !== ''`: equality with
      `String(tickets)`; unlike the LIKE filters, "0" still filters. */
  function TicketsFilter(params: Params): (r: seq<Predicate>)
    ensures |r| <= 1
    ensures |r| == 1 <==> "tickets" in params && params["tickets"] != Text("")
    ensures r != [] ==> r[0] == Equals("aa.Tickets", SqlText(ToText(params["tickets"])))
  {
    match Get(params, "tickets")
    case Some(v) => if v != Text("") then [Equals("aa.Tickets", SqlText(ToText(v)))] else []
    case None => []
  }

  /** The article group, in the order it is pushed: tag, tickets, registration. */
  function ArticleFilters(params: Params): (r: seq<Predicate>)
    ensures |r|
      == (if "tag" in params && Truthy(params["tag"]) then 1 else 0)
       + (if "tickets" in params && params["tickets"] != Text("") then 1 else 0)
       + (if "registration" in params && Truthy(params["registration"]) then 1 else 0)
  {
    LikeFilter(params, "tag", "aa.Tag") + TicketsFilter(params) + LikeFilter(params, "registration", "aa.Registration")
  }

  /** The activity group: the activity listing's predicates after its status
      one, with the creation filter read from `created_filter`. */
  function ActivityGroup(params: Params, compare: string): (r: seq<Predicate>)
    ensures 1 <= |r| <= 4 && r[|r| - 1] == After("ac.expirationtime", compare)
  {
    WithActivityGroup([], params, "created_filter", compare)
  }

  /** All predicates of the WHERE clause: the article group, then the activity
      group. */
  function AllFilters(params: Params, compare: string): seq<Predicate>
  {
    ArticleFilters(params) + ActivityGroup(params, compare)
  }

  /** The compare time: a numeric `compare_time`, else a numeric `createtime`,
      else `Math.floor(Date.now() / 1000)`. */
  function ArticleCompareText(params: Params, nowMs: int, zone: int): (r: string)
    ensures ValidMs(nowMs) ==> r == CompareText(params, nowMs, zone)
  {
    match CompareOverride(params)
    case Some(seconds) => FormatDateTimeFromUnix(seconds, zone)
    case None => FormatDateTimeFromUnix(Int(nowMs / 1000), zone)
  }

  /** What `buildWhereClauses` returns: both groups and whether the activity
      table takes part. */
  datatype WhereGroups = WhereGroups(
    clauses: seq<string>, values: seq<SqlValue>,
    activityClauses: seq<string>, activityValues: seq<SqlValue>,
    joinedActivity: bool)

  /** `buildWhereClauses(params)`: both groups pushed one predicate at a time.
      The expiration predicate is always pushed, so the activity table always
      takes part. */
  method BuildWhereClauses(params: Params, nowMs: int, zone: int) returns (r: WhereGroups)
    ensures r.clauses == Texts(ArticleFilters(params)) && r.values == Bindings(ArticleFilters(params))
    ensures r.activityClauses == Texts(ActivityGroup(params, ArticleCompareText(params, nowMs, zone)))
    ensures r.activityValues == Bindings(ActivityGroup(params, ArticleCompareText(params, nowMs, zone)))
    ensures r.joinedActivity
  {
    var tag := LikeFilter(params, "tag", "aa.Tag");
    var tickets := TicketsFilter(params);
    var registration := LikeFilter(params, "registration", "aa.Registration");
    var clauses, values := PushAll([], [], [], tag);
    assert [] + tag == tag;
    clauses, values := PushAll(clauses, values, tag, tickets);
    clauses, values := PushAll(clauses, values, tag + tickets, registration);
    var activityClauses, activityValues :=
      PushActivityGroup([], [], [], params, "created_filter", ArticleCompareText(params, nowMs, zone));
    r := WhereGroups(clauses, values, activityClauses, activityValues, |activityClauses| > 0);
  }

  /** The `whereParts` step of `search`: each non-empty group joined on its own,
      the parts joined again, and the values of the non-empty groups in order.
      Joining in two steps is joining all clauses at once. */
  method CombineWhere(w: WhereGroups) returns (whereSql: string, allValues: seq<SqlValue>)
    ensures whereSql == WhereSql(w.clauses + w.activityClauses)
    ensures (w.clauses != [] || w.values == []) && (w.activityClauses != [] || w.activityValues == []) ==>
      allValues == w.values + w.activityValues
  {
    var whereParts: seq<string> := [];
    allValues := [];
    if |w.clauses| > 0 {
      whereParts := whereParts + [Join(w.clauses, Conjunction)];
      allValues := allValues + w.values;
    }
    ghost var first, firstValues := whereParts, allValues;
    assert first == if w.clauses != [] then [Join(w.clauses, Conjunction)] else [];
    assert firstValues == if w.clauses != [] then w.values else [];
    if |w.activityClauses| > 0 {
      whereParts := whereParts + [Join(w.activityClauses, Conjunction)];
      allValues := allValues + w.activityValues;
    }
    assert whereParts == first + if w.activityClauses != [] then [Join(w.activityClauses, Conjunction)] else [];
    assert allValues == firstValues + if w.activityClauses != [] then w.activityValues else [];
    if w.clauses == [] && w.values == [] {
      assert firstValues == w.values;
    }
    if w.activityClauses == [] && w.activityValues == [] {
      assert allValues == firstValues + w.activityValues;
    }
    whereSql := if |whereParts| > 0 then "WHERE " + Join(whereParts, Conjunction) else "";
    JoinGroups(w.clauses, w.activityClauses, whereParts);
  }

  /** Joining the joined non-empty groups is joining all their clauses. */
  lemma JoinGroups(a: seq<string>, b: seq<string>, parts: seq<string>)
    requires parts == (if a != [] then [Join(a, Conjunction)] else []) + (if b != [] then [Join(b, Conjunction)] else [])
    ensures (if |parts| > 0 then "WHERE " + Join(parts, Conjunction) else "") == WhereSql(a + b)
  {
    if a != [] && b != [] {
      JoinAppend(a, b, Conjunction);
      assert parts[1..] == [Join(b, Conjunction)];
    } else if a == [] {
      assert a + b == b;
    } else {
      assert a + b == a;
    }
  }

  // ---------------------------------------------------------------------------
  // The statements and the search.

  /** The left join of each article's activity. */
  function ActivityJoinSql(prefix: string): string
  {
    "LEFT JOIN " + GetTable(prefix, "activity") + " ac ON ac.article_detail_id = aa.Id"
  }

  /** Both left joins: the activity of each article, then the activity
      listing's join of its reward row. */
  function ArticleJoinSql(prefix: string): string
  {
    ActivityJoinSql(prefix) + " " + JoinSql(prefix)
  }

  /** The text of the count statement up to its WHERE clause. */
  function ArticleCountHead(prefix: string): string
  {
    "SELECT COUNT(*) AS cnt FROM " + GetTable(prefix, "active_article") + " aa " + ArticleJoinSql(prefix) + " "
  }

  /** The article columns of a listed row; the article id appears twice. */
  const ArticleColumns: seq<string> := [
    "aa.Id AS article_id", "aa.Id AS article_detail_id", "aa.Tag", "aa.Tickets",
    "aa.Articlecontent", "aa.updatetime"]

  /** The activity columns of a listed row. */
  const ActivityColumns: seq<string> := [
    "ac.id AS activity_id", "ac.background_image", "ac.title", "ac.subtitle", "ac.status",
    "ac.createtime", "ac.expirationtime", "ac.deletetime", "ac.currency_type", "ac.location",
    "ac.target_amount"]

  /** The text of the list statement up to its WHERE clause. */
  function ArticleListHead(prefix: string): string
  {
    "SELECT " + Join(ArticleColumns + ActivityColumns + RewardColumns, ", ") + " FROM "
      + GetTable(prefix, "active_article") + " aa " + ArticleJoinSql(prefix) + " "
  }

  const ArticleOrder: string := " ORDER BY aa.Id DESC"

  /** The count statement binds exactly the WHERE values. */
  function ArticleCountStatement(prefix: string, ps: seq<Predicate>): Statement
  {
    Statement(ArticleCountHead(prefix) + WhereSql(Texts(ps)), Bindings(ps))
  }

  /** The list statement binds the WHERE values followed by limit and offset. */
  function ArticleListStatement(prefix: string, ps: seq<Predicate>, paging: Paging): Statement
  {
    Statement(ArticleListHead(prefix) + WhereSql(Texts(ps)) + ArticleOrder + LimitOffset,
              Bindings(ps) + [SqlNumber(paging.limit), SqlNumber(paging.offset)])
  }

  /** `search(params)`: page and limit, both groups, the combined WHERE clause,
      the count statement and the list statement. */
  method Search(db: Database, prefix: string, params: Params, nowMs: int, zone: int) returns (r: Result<PageResult>)
    ensures var ps, paging := AllFilters(params, ArticleCompareText(params, nowMs, zone)), Paginate(params);
      r == RunListing(db, ArticleCountStatement(prefix, ps), ArticleListStatement(prefix, ps, paging), paging)
  {
    var paging := Paginate(params);
    var w := BuildWhereClauses(params, nowMs, zone);
    ghost var article, activity := ArticleFilters(params), ActivityGroup(params, ArticleCompareText(params, nowMs, zone));
    assert w.activityClauses != [] by {
      assert |activity| > 0;
    }
    assert w.clauses != [] || w.values == [] by {
      if w.clauses == [] {
        assert article == [];
      }
    }
    var whereSql, allValues := CombineWhere(w);
    TextsAppend(article, activity);
    var count := Statement(ArticleCountHead(prefix) + whereSql, allValues);
    var list := Statement(ArticleListHead(prefix) + whereSql + ArticleOrder + LimitOffset,
                          allValues + [SqlNumber(paging.limit), SqlNumber(paging.offset)]);
    r := RunListing(db, count, list, paging);
  }
}
