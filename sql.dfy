/** The pieces both listing models share: WHERE predicates with their bound
    values, the `?` alignment between them, paging, the `total` rule and the
    page envelope `{list, total, page, limit}`. Rows come back from the
    database as maps from column names to cells. */
module Sql {
  import opened Strings
  import opened Wrappers
  import opened Js

  /** A value bound to one `?` placeholder. */
  datatype SqlValue = SqlText(text: string) | SqlNumber(n: Num)

  /** One predicate of a WHERE clause, as the builders write it. */
  datatype Predicate =
    | Equals(column: string, value: SqlValue)       // column = ?
    | Like(column: string, needle: string)          // column LIKE ?, bound to %needle%
    | Between(column: string, low: Num, high: Num)  // column BETWEEN ? AND ?
    | After(column: string, bound: string)          // column > ?

  /** The SQL text of a predicate. */
  function ClauseText(p: Predicate): string
  {
    match p
    case Equals(c, _) => c + " = ?"
    case Like(c, _) => c + " LIKE ?"
    case Between(c, _, _) => c + " BETWEEN ?" + " AND ?"
    case After(c, _) => c + " > ?"
  }

  /** The values a predicate binds, in the order of its placeholders. */
  function Binds(p: Predicate): seq<SqlValue>
  {
    match p
    case Equals(_, v) => [v]
    case Like(_, needle) => [SqlText("%" + needle + "%")]
    case Between(_, low, high) => [SqlNumber(low), SqlNumber(high)]
    case After(_, bound) => [SqlText(bound)]
  }

  /** The clause texts of a predicate list (the builders' `clauses`). */
  function Texts(ps: seq<Predicate>): (r: seq<string>)
    ensures |r| == |ps|
    ensures forall i | 0 <= i < |ps| :: r[i] == ClauseText(ps[i])
  {
    if ps == [] then [] else [ClauseText(ps[0])] + Texts(ps[1..])
  }

  /** The bound values of a predicate list (the builders' `values`). */
  function Bindings(ps: seq<Predicate>): seq<SqlValue>
  {
    if ps == [] then [] else Binds(ps[0]) + Bindings(ps[1..])
  }

  lemma {:induction false} TextsAppend(a: seq<Predicate>, b: seq<Predicate>)
    ensures Texts(a + b) == Texts(a) + Texts(b)
    ensures Bindings(a + b) == Bindings(a) + Bindings(b)
    decreases |a|
  {
    if a == [] {
      assert a + b == b;
    } else {
      assert (a + b)[0] == a[0] && (a + b)[1..] == a[1..] + b;
      TextsAppend(a[1..], b);
    }
  }

  /** A column name without a `?`. */
  predicate PlainColumn(p: Predicate)
  {
    '?' !in p.column
  }

  const Conjunction: string := " AND "

  /** Each predicate text holds exactly as many placeholders as it binds values. */
  lemma TextPlaceholders(p: Predicate)
    requires PlainColumn(p)
    ensures Placeholders(ClauseText(p)) == |Binds(p)|
  {
    var c := p.column;
    match p
    case Equals(_, _) =>
      assert '?' !in " = ";
      assert c + " = ?" == (c + " = ") + "?";
      OnePlaceholder(c + " = ");
    case Like(_, _) =>
      assert '?' !in " LIKE ";
      assert c + " LIKE ?" == (c + " LIKE ") + "?";
      OnePlaceholder(c + " LIKE ");
    case Between(_, _, _) =>
      assert '?' !in " BETWEEN " && '?' !in " AND ";
      assert c + " BETWEEN ?" == (c + " BETWEEN ") + "?";
      assert " AND ?" == " AND " + "?";
      OnePlaceholder(c + " BETWEEN ");
      OnePlaceholder(" AND ");
      PlaceholdersAppend(c + " BETWEEN ?", " AND ?");
    case After(_, _) =>
      assert '?' !in " > ";
      assert c + " > ?" == (c + " > ") + "?";
      OnePlaceholder(c + " > ");
  }

  /** `clauses.join(' AND ')` holds exactly `values.length` placeholders. */
  lemma {:induction false} WherePlaceholders(ps: seq<Predicate>)
    requires forall i | 0 <= i < |ps| :: PlainColumn(ps[i])
    ensures Placeholders(Join(Texts(ps), Conjunction)) == |Bindings(ps)|
    decreases |ps|
  {
    if ps != [] {
      TextPlaceholders(ps[0]);
      if |ps| > 1 {
        WherePlaceholders(ps[1..]);
        assert Texts(ps)[1..] == Texts(ps[1..]);
        assert Placeholders(Conjunction) == 0;
        PlaceholdersAppend(ClauseText(ps[0]), Conjunction);
        PlaceholdersAppend(ClauseText(ps[0]) + Conjunction, Join(Texts(ps[1..]), Conjunction));
      } else {
        assert Bindings(ps[1..]) == [];
      }
    }
  }

  /** The clause texts split at predicate k: the texts before it, a
      conjunction, and the texts from it on, which start with its own text. */
  lemma TextAlignment(ps: seq<Predicate>, k: nat)
    requires 0 < k < |ps|
    ensures Join(Texts(ps), Conjunction)
      == Join(Texts(ps[..k]), Conjunction) + Conjunction + Join(Texts(ps[k..]), Conjunction)
    ensures Join(Texts(ps[k..]), Conjunction)[..|ClauseText(ps[k])|] == ClauseText(ps[k])
  {
    assert ps == ps[..k] + ps[k..];
    TextsAppend(ps[..k], ps[k..]);
    JoinAppend(Texts(ps[..k]), Texts(ps[k..]), Conjunction);
    JoinHead(Texts(ps[k..]), Conjunction);
  }

  /** The values split at predicate k: the values of the predicates before it,
      its own values, and those of the predicates after it. */
  lemma ValueAlignment(ps: seq<Predicate>, k: nat)
    requires 0 <= k < |ps|
    ensures Bindings(ps) == Bindings(ps[..k]) + Binds(ps[k]) + Bindings(ps[k + 1..])
  {
    assert ps == ps[..k] + [ps[k]] + ps[k + 1..];
    BindingsAround(ps[..k], ps[k], ps[k + 1..]);
  }

  lemma BindingsAround(a: seq<Predicate>, p: Predicate, b: seq<Predicate>)
    ensures Bindings(a + [p] + b) == Bindings(a) + Binds(p) + Bindings(b)
  {
    TextsAppend(a, [p]);
    TextsAppend(a + [p], b);
    assert Bindings([p]) == Binds(p) + Bindings([]);
  }

  /** The text before predicate k, with its conjunction, holds exactly as many
      placeholders as the predicates before k bind values. */
  lemma PrefixPlaceholders(ps: seq<Predicate>, k: nat)
    requires 0 < k <= |ps|
    requires forall i | 0 <= i < |ps| :: PlainColumn(ps[i])
    ensures Placeholders(Join(Texts(ps[..k]), Conjunction) + Conjunction) == |Bindings(ps[..k])|
  {
    assert forall i | 0 <= i < k :: ps[..k][i] == ps[i];
    WherePlaceholders(ps[..k]);
    PlaceholdersAppend(Join(Texts(ps[..k]), Conjunction), Conjunction);
    assert Placeholders(Conjunction) == 0;
  }

  /** `clauses.length ? `WHERE ${clauses.join(' AND ')}` : ''`. */
  function WhereSql(clauses: seq<string>): string
  {
    if |clauses| > 0 then "WHERE " + Join(clauses, Conjunction) else ""
  }

  /** The WHERE text of a predicate list holds one `?` per bound value. */
  lemma WhereSqlPlaceholders(ps: seq<Predicate>)
    requires forall i | 0 <= i < |ps| :: PlainColumn(ps[i])
    ensures Placeholders(WhereSql(Texts(ps))) == |Bindings(ps)|
  {
    WherePlaceholders(ps);
    if ps != [] {
      NoPlaceholders("WHERE ");
      PlaceholdersAppend("WHERE ", Join(Texts(ps), Conjunction));
    }
  }

  /** The paging tail every list statement ends with. */
  const LimitOffset: string := " LIMIT ?" + " OFFSET ?"

  /** The paging tail binds the page size and the offset. */
  lemma LimitOffsetPlaceholders()
    ensures Placeholders(LimitOffset) == 2
  {
    assert '?' !in " LIMIT " && '?' !in " OFFSET ";
    assert " LIMIT ?" == " LIMIT " + "?" && " OFFSET ?" == " OFFSET " + "?";
    OnePlaceholder(" LIMIT ");
    OnePlaceholder(" OFFSET ");
    PlaceholdersAppend(" LIMIT ?", " OFFSET ?");
  }

  /** A statement framed by text without `?` holds the placeholders of its
      WHERE text, plus two when the paging tail follows. */
  lemma FramedPlaceholders(head: string, where: string, tail: string)
    requires '?' !in head && '?' !in tail
    ensures Placeholders(head + where) == Placeholders(where)
    ensures Placeholders(head + where + tail + LimitOffset) == Placeholders(where) + 2
  {
    NoPlaceholders(head);
    NoPlaceholders(tail);
    PlaceholdersAppend(head, where);
    PlaceholdersAppend(head + where, tail);
    LimitOffsetPlaceholders();
    PlaceholdersAppend(head + where + tail, LimitOffset);
  }

  /** A paged statement framed by text without `?` holds one `?` per WHERE
      value plus limit and offset, and its WHERE text sits right after the head. */
  lemma PagedFrame(head: string, ps: seq<Predicate>, tail: string)
    requires '?' !in head && '?' !in tail
    requires forall i | 0 <= i < |ps| :: PlainColumn(ps[i])
    ensures Placeholders(head + WhereSql(Texts(ps)) + tail + LimitOffset) == |Bindings(ps)| + 2
    ensures (head + WhereSql(Texts(ps)) + tail + LimitOffset)[|head|..|head| + |WhereSql(Texts(ps))|]
      == WhereSql(Texts(ps))
  {
    var where := WhereSql(Texts(ps));
    WhereSqlPlaceholders(ps);
    FramedPlaceholders(head, where, tail);
    Middle(head, where, tail + LimitOffset);
    assert head + where + tail + LimitOffset == head + where + (tail + LimitOffset);
  }

  // ---------------------------------------------------------------------------
  // Paging.

  /** Page number, page size and row offset of a listing request. */
  datatype Paging = Paging(page: Num, limit: Num, offset: Num)

  /** `params[key] ? parseInt(params[key], 10) : fallback`. */
  function PagingParam(params: Params, key: string, fallback: int): (r: Num)
    ensures key !in params ==> r == Int(fallback)
    ensures key in params && Truthy(params[key]) ==> r == ParseIntValue(params[key])
  {
    match Get(params, key)
    case Some(v) => if Truthy(v) then ParseIntValue(v) else Int(fallback)
    case None => Int(fallback)
  }

  /** `page` defaults to 1 and `limit` to 10; `offset = (page - 1) * limit`, where
      a NaN on either side makes the offset NaN. */
  function Paginate(params: Params): (r: Paging)
    ensures r.page.NaN? || r.limit.NaN? <==> r.offset.NaN?
    ensures r.offset.Int? ==> r.offset.value == (r.page.value - 1) * r.limit.value
  {
    var page := PagingParam(params, "page", 1);
    var limit := PagingParam(params, "limit", 10);
    var offset := if page.Int? && limit.Int? then Int((page.value - 1) * limit.value) else NaN;
    Paging(page, limit, offset)
  }

  /** Without `page` and `limit` the first ten rows are listed. */
  lemma PaginateDefaults(params: Params)
    requires "page" !in params && "limit" !in params
    ensures Paginate(params) == Paging(Int(1), Int(10), Int(0))
  {
  }

  /** A parameter sent as the decimal text of n reads back as n; the text is
      never empty, so even "0" counts as given. */
  lemma PagingParamRendered(params: Params, key: string, fallback: int, n: int)
    requires key in params && params[key] == Text(IntToString(n))
    ensures PagingParam(params, key, fallback) == Int(n)
  {
    ParseIntRoundTrip(n);
    DigitsShape(Abs(n));
    assert Truthy(params[key]);
  }

  /** Page p of size n starts after the first (p - 1) * n rows. */
  lemma PaginateNumbers(p: int, n: int)
    ensures Paginate(map["page" := Text(IntToString(p)), "limit" := Text(IntToString(n))])
      == Paging(Int(p), Int(n), Int((p - 1) * n))
  {
    var params := map["page" := Text(IntToString(p)), "limit" := Text(IntToString(n))];
    PagingParamRendered(params, "page", 1, p);
    PagingParamRendered(params, "limit", 10, n);
  }

  // ---------------------------------------------------------------------------
  // Result rows.

  /** A cell of a result row. */
  datatype Cell = IntCell(i: int) | TextCell(t: string) | NullCell

  /** A result row: column name to cell. */
  type Row = map<string, Cell>

  predicate TruthyCell(c: Cell)
  {
    match c
    case IntCell(i) => i != 0
    case TextCell(t) => t != ""
    case NullCell => false
  }

  /** `countRows[0]?.cnt || 0`: the count of the first row, with a missing row,
      a missing column or a falsy count all reading as 0. */
  function TotalOf(countRows: seq<Row>): (total: Cell)
    ensures total == IntCell(0) || TruthyCell(total)
    ensures TruthyCell(total) <==> |countRows| > 0 && "cnt" in countRows[0] && TruthyCell(countRows[0]["cnt"])
    ensures TruthyCell(total) ==> total == countRows[0]["cnt"]
  {
    if |countRows| > 0 && "cnt" in countRows[0] && TruthyCell(countRows[0]["cnt"]) then countRows[0]["cnt"]
    else IntCell(0)
  }

  /** A COUNT(*) result of n rows gives total n; no result row gives 0. */
  lemma TotalOfCount(n: int)
    ensures TotalOf([map["cnt" := IntCell(n)]]) == IntCell(n)
    ensures TotalOf([]) == IntCell(0)
  {
  }

  /** A statement sent to the database: SQL text and its bound values. */
  datatype Statement = Statement(sql: string, values: seq<SqlValue>)

  /** The database, as far as a listing sees it: each statement either yields
      rows or rejects with a message. */
  type Database = Statement -> Result<seq<Row>>

  /** `{list, total, page, limit}` as the listing models return it. */
  datatype PageResult = PageResult(list: seq<Row>, total: Cell, page: Num, limit: Num)

  /** Running the count statement and then the list statement; either rejection
      rejects the whole search. */
  function RunListing(db: Database, count: Statement, list: Statement, paging: Paging): (r: Result<PageResult>)
    ensures r.Ok? <==> db(count).Ok? && db(list).Ok?
    ensures r.Ok? ==> r.value == PageResult(db(list).value, TotalOf(db(count).value), paging.page, paging.limit)
    ensures r.Err? && db(count).Err? ==> r.message == db(count).message
    ensures r.Err? && db(count).Ok? ==> r.message == db(list).message
  {
    match db(count)
    case Err(m) => Err(m)
    case Ok(countRows) =>
      match db(list)
      case Err(m) => Err(m)
      case Ok(listRows) => Ok(PageResult(listRows, TotalOf(countRows), paging.page, paging.limit))
  }
}
