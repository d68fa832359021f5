/** The demo Express server over the events database: the listing that closes
    past upcoming events, the search statement built one filter at a time, and
    the lookup of one event by id. */
module EventServer {
  import opened Wrappers
  import opened Js
  import opened Strings
  import opened Sql

  // ---------------------------------------------------------------------------
  // The listing and its sweep

  /** One listed event; `eventDate` is the instant the driver returns for the
      `event_date` column (NaN for a date it cannot read). */
  datatype EventRow = EventRow(id: int, name: string, eventDate: Num, location: string, status: string)

  /** An event still marked upcoming whose date has passed. */
  predicate Stale(e: EventRow, nowMs: int)
  {
    e.eventDate.Int? && e.eventDate.value < nowMs && e.status == "upcoming"
  }

  /** What the sweep leaves of one event: a stale event is marked ended,
      every other event is kept. */
  function Swept(e: EventRow, nowMs: int): (r: EventRow)
    ensures r.id == e.id && r.name == e.name && r.eventDate == e.eventDate && r.location == e.location
    ensures r.status != e.status <==> Stale(e, nowMs)
    ensures r.status != e.status ==> r.status == "ended"
  {
    if Stale(e, nowMs) then e.(status := "ended") else e
  }

  /** The ids the sweep sends to `UPDATE events SET status = 'ended'`, in
      listing order. */
  function StaleIds(rows: seq<EventRow>, nowMs: int): (r: seq<int>)
    ensures |r| <= |rows|
  {
    if rows == [] then []
    else
      var init, last := rows[..|rows| - 1], rows[|rows| - 1];
      StaleIds(init, nowMs) + if Stale(last, nowMs) then [last.id] else []
  }

  /** The loop of the listing handler: each stale event is updated in the
      database and marked ended in the list that is returned. */
  method Sweep(events: array<EventRow>, nowMs: int) returns (updates: seq<int>)
    modifies events
    ensures forall i | 0 <= i < events.Length :: events[i] == Swept(old(events[i]), nowMs)
    ensures updates == StaleIds(old(events[..]), nowMs)
  {
    updates := [];
    for i := 0 to events.Length
      invariant forall j | 0 <= j < i :: events[j] == Swept(old(events[j]), nowMs)
      invariant forall j | i <= j < events.Length :: events[j] == old(events[j])
      invariant updates == StaleIds(old(events[..])[..i], nowMs)
    {
      var e := events[i];
      assert old(events[..])[..i + 1][..i] == old(events[..])[..i];
      if e.eventDate.Int? && e.eventDate.value < nowMs && e.status == "upcoming" {
        updates := updates + [e.id];
        events[i] := e.(status := "ended");
      }
    }
    assert old(events[..])[..events.Length] == old(events[..]);
  }

  /** After the sweep no listed event is stale, and sweeping again changes
      nothing and updates nothing. */
  lemma SweepSettles(e: EventRow, nowMs: int)
    ensures !Stale(Swept(e, nowMs), nowMs)
    ensures Swept(Swept(e, nowMs), nowMs) == Swept(e, nowMs)
  {
  }

  /** Every id the sweep updates is the id of a stale listed event, and every
      stale listed event is updated. */
  lemma {:induction false} StaleIdsExact(rows: seq<EventRow>, nowMs: int)
    ensures forall id | id in StaleIds(rows, nowMs) :: exists e | e in rows :: e.id == id && Stale(e, nowMs)
    ensures forall e | e in rows && Stale(e, nowMs) :: e.id in StaleIds(rows, nowMs)
    decreases |rows|
  {
    if rows != [] {
      var init := rows[..|rows| - 1];
      StaleIdsExact(init, nowMs);
      assert rows == init + [rows[|rows| - 1]];
    }
  }

  /** A listing with nothing stale sends no update. */
  lemma {:induction false} NothingStaleNoUpdates(rows: seq<EventRow>, nowMs: int)
    requires forall e | e in rows :: !Stale(e, nowMs)
    ensures StaleIds(rows, nowMs) == []
    decreases |rows|
  {
    if rows != [] {
      var init := rows[..|rows| - 1];
      assert forall e | e in init :: e in rows;
      assert rows[|rows| - 1] in rows;
      NothingStaleNoUpdates(init, nowMs);
    }
  }

  // ---------------------------------------------------------------------------
  // The search statement

  /** The query string of a search; an absent key is "". */
  datatype SearchQuery = SearchQuery(date: string, location: string, category: string, status: string)

  /** The columns the listing and the search select. */
  const EventColumns: seq<string> := DescriptionColumns + FigureColumns + NameColumns

  const DescriptionColumns: seq<string> := ["e.id", "e.name", "e.description", "e.event_date", "e.location"]
  const FigureColumns: seq<string> := [
    "e.target_amount", "e.current_amount", "e.ticket_price", "e.is_free",
    "e.max_participants", "e.current_participants"]
  const NameColumns: seq<string> := [
    "e.status", "e.image_url", "c.name as category_name", "o.name as organization_name"]

  const EventsFrom: string := "FROM events e"
  const CategoryJoin: string := " JOIN categories c" + " ON e.category_id = c.id"
  const OrganizationJoin: string := " JOIN organizations o" + " ON e.organization_id = o.id"
  const ListedOnly: string := " WHERE e.status IN" + " ('upcoming', 'ongoing')"

  /** The statement up to its first added filter: only upcoming and ongoing
      events are ever searched. */
  function SearchHead(): string
  {
    "SELECT " + Join(EventColumns, ", ") + " " + FromClause
  }

  const FromClause: string := EventsFrom + CategoryJoin + OrganizationJoin + ListedOnly

  const SearchOrder: string := " ORDER BY e.event_date ASC"

  /** The filters a query adds, in the order the handler tests them: the day,
      the trimmed location, the category id unless `all`, the status unless `all`. */
  function SearchPredicates(q: SearchQuery): (r: seq<Predicate>)
    ensures |r| ==
      (if q.date != "" then 1 else 0) + (if Trim(q.location) != "" then 1 else 0)
      + (if q.category != "" && q.category != "all" then 1 else 0)
      + (if q.status != "" && q.status != "all" then 1 else 0)
  {
    DatePart(q) + LocationPart(q) + CategoryPart(q) + StatusPart(q)
  }

  function DatePart(q: SearchQuery): seq<Predicate>
  {
    if q.date != "" then [Equals("DATE(e.event_date)", SqlText(q.date))] else []
  }

  function LocationPart(q: SearchQuery): seq<Predicate>
  {
    if Trim(q.location) != "" then [Like("e.location", Trim(q.location))] else []
  }

  function CategoryPart(q: SearchQuery): seq<Predicate>
  {
    if q.category != "" && q.category != "all" then [Equals("e.category_id", SqlNumber(ParseIntAuto(q.category)))] else []
  }

  function StatusPart(q: SearchQuery): seq<Predicate>
  {
    if q.status != "" && q.status != "all" then [Equals("e.status", SqlText(q.status))] else []
  }

  /** The text so far with each filter appended as ` AND <clause>`, in order. */
  function WithFilters(sql: string, ps: seq<Predicate>): string
  {
    if ps == [] then sql
    else WithFilters(sql, ps[..|ps| - 1]) + " AND " + ClauseText(ps[|ps| - 1])
  }

  /** The statement text the handler sends: it holds exactly one `?` per
      parameter the handler binds. */
  function SearchSql(q: SearchQuery): (r: string)
    ensures Placeholders(r) == |Bindings(SearchPredicates(q))|
  {
    PredicatesPlain(q);
    HeadPlain();
    Framed(SearchHead(), SearchPredicates(q), SearchOrder);
    WithFilters(SearchHead(), SearchPredicates(q)) + SearchOrder
  }

  /** The handler's building of `sql` and `params`: the head, the filters,
      the order. */
  method BuildSearch(q: SearchQuery) returns (sql: string, params: seq<SqlValue>)
    ensures sql == SearchSql(q)
    ensures params == Bindings(SearchPredicates(q))
  {
    sql, params := AddFilters(SearchHead(), q);
    sql := sql + SearchOrder;
  }

  /** The four tests of the handler, in order: each filter given appends
      ` AND ` and its clause to the text, and binds its value. */
  method AddFilters(head: string, q: SearchQuery) returns (sql: string, params: seq<SqlValue>)
    ensures sql == WithFilters(head, SearchPredicates(q))
    ensures params == Bindings(SearchPredicates(q))
  {
    sql, params := head, [];
    if q.date != "" {
      var filter := Equals("DATE(e.event_date)", SqlText(q.date));
      sql := sql + " AND " + ClauseText(filter);
      params := params + [SqlText(q.date)];
    }
    Start(head, DatePart(q), sql, params);
    ghost var ps := DatePart(q);
    ghost var sql0, params0 := sql, params;
    var location := Trim(q.location);
    if q.location != "" && location != "" {
      var filter := Like("e.location", location);
      sql := sql + " AND " + ClauseText(filter);
      params := params + [SqlText("%" + location + "%")];
    }
    ps := Extend(head, ps, LocationPart(q), sql, params, sql0, params0);
    sql0, params0 := sql, params;
    if q.category != "" && q.category != "all" {
      var filter := Equals("e.category_id", SqlNumber(ParseIntAuto(q.category)));
      sql := sql + " AND " + ClauseText(filter);
      params := params + [SqlNumber(ParseIntAuto(q.category))];
    }
    ps := Extend(head, ps, CategoryPart(q), sql, params, sql0, params0);
    sql0, params0 := sql, params;
    if q.status != "" && q.status != "all" {
      var filter := Equals("e.status", SqlText(q.status));
      sql := sql + " AND " + ClauseText(filter);
      params := params + [SqlText(q.status)];
    }
    ps := Extend(head, ps, StatusPart(q), sql, params, sql0, params0);
  }

  /** One step of the handler: a filter that is absent changes nothing, a
      filter that is present appends its clause and its value. */
  lemma Extend(head: string, ps: seq<Predicate>, part: seq<Predicate>, sql: string, params: seq<SqlValue>,
               sql0: string, params0: seq<SqlValue>) returns (qs: seq<Predicate>)
    requires |part| <= 1
    requires sql0 == WithFilters(head, ps) && params0 == Bindings(ps)
    requires part == [] ==> sql == sql0 && params == params0
    requires part != [] ==> sql == sql0 + " AND " + ClauseText(part[0]) && params == params0 + Binds(part[0])
    ensures qs == ps + part
    ensures sql == WithFilters(head, qs) && params == Bindings(qs)
  {
    qs := ps + part;
    if part == [] {
      assert qs == ps;
    } else {
      ExtendOne(head, ps, part);
    }
  }

  lemma ExtendOne(head: string, ps: seq<Predicate>, part: seq<Predicate>)
    requires |part| == 1
    ensures WithFilters(head, ps + part) == WithFilters(head, ps) + " AND " + ClauseText(part[0])
    ensures Bindings(ps + part) == Bindings(ps) + Binds(part[0])
  {
    assert (ps + part)[..|ps + part| - 1] == ps;
    assert part == [part[0]];
    LastBinds(ps, part[0]);
  }

  /** The first filter: the head alone, or the head and its clause. */
  lemma Start(head: string, part: seq<Predicate>, sql: string, params: seq<SqlValue>)
    requires |part| <= 1
    requires part == [] ==> sql == head && params == []
    requires part != [] ==> sql == head + " AND " + ClauseText(part[0]) && params == Binds(part[0])
    ensures sql == WithFilters(head, part) && params == Bindings(part)
  {
    if part != [] {
      ExtendOne(head, [], part);
      assert [] + part == part;
    }
  }

  // ---------------------------------------------------------------------------
  // What a search binds

  /** Each filter a query gives contributes exactly one predicate, and each
      predicate exactly one value. */
  lemma SearchBindsOnePerFilter(q: SearchQuery)
    ensures |Bindings(SearchPredicates(q))| == |SearchPredicates(q)|
  {
    OneValueEach(DatePart(q));
    OneValueEach(LocationPart(q));
    OneValueEach(CategoryPart(q));
    OneValueEach(StatusPart(q));
    FourLengths(DatePart(q), LocationPart(q), CategoryPart(q), StatusPart(q));
  }

  lemma FourLengths(a: seq<Predicate>, b: seq<Predicate>, c: seq<Predicate>, d: seq<Predicate>)
    requires |Bindings(a)| == |a| && |Bindings(b)| == |b| && |Bindings(c)| == |c| && |Bindings(d)| == |d|
    ensures |Bindings(a + b + c + d)| == |a| + |b| + |c| + |d| == |a + b + c + d|
  {
    FourParts(a, b, c, d);
  }

  /** The values of four lists of filters in a row are their values in a row. */
  lemma FourParts(a: seq<Predicate>, b: seq<Predicate>, c: seq<Predicate>, d: seq<Predicate>)
    ensures Bindings(a + b + c + d) == Bindings(a) + Bindings(b) + Bindings(c) + Bindings(d)
  {
    TextsAppend(a, b);
    TextsAppend(a + b, c);
    TextsAppend(a + b + c, d);
  }

  lemma OneValueEach(part: seq<Predicate>)
    requires |part| <= 1 && forall p | p in part :: !p.Between?
    ensures |Bindings(part)| == |part|
  {
    if part != [] {
      assert part[0] in part;
      assert part[1..] == [];
    }
  }

  /** The location clause appears exactly when the trimmed location is not
      blank, and then it matches the trimmed text anywhere in the column. */
  lemma LocationFilter(q: SearchQuery)
    ensures (exists p | p in SearchPredicates(q) :: p.Like?) <==> Trim(q.location) != ""
    ensures Trim(q.location) != "" ==> Like("e.location", Trim(q.location)) in SearchPredicates(q)
  {
    forall p | p in SearchPredicates(q)
      ensures p.Like? <==> p in LocationPart(q)
    {
      InSomePart(q, p);
    }
    if LocationPart(q) != [] {
      InSomePart(q, LocationPart(q)[0]);
    }
  }

  /** A location made only of white space, such as the ideographic space U+3000,
      adds no location clause: the statement is the one without a location. */
  lemma BlankLocationIgnored(q: SearchQuery)
    requires forall i | 0 <= i < |q.location| :: IsSpace(q.location[i])
    ensures SearchPredicates(q) == SearchPredicates(q.(location := ""))
    ensures forall p | p in SearchPredicates(q) :: !p.Like?
  {
    TrimEmptyIffBlank(q.location);
    LocationFilter(q);
  }

  /** A given location binds `%trimmed%`. */
  lemma LocationBound(q: SearchQuery)
    requires Trim(q.location) != ""
    ensures SqlText("%" + Trim(q.location) + "%") in Bindings(SearchPredicates(q))
  {
    var b := LocationPart(q);
    FourParts(DatePart(q), b, CategoryPart(q), StatusPart(q));
    assert Bindings(b) == [SqlText("%" + Trim(q.location) + "%")] + Bindings([]);
  }

  /** A predicate of the search comes from exactly one of the four filters. */
  lemma InSomePart(q: SearchQuery, p: Predicate)
    ensures p in SearchPredicates(q) <==>
      p in DatePart(q) || p in LocationPart(q) || p in CategoryPart(q) || p in StatusPart(q)
  {
    assert SearchPredicates(q) == DatePart(q) + LocationPart(q) + CategoryPart(q) + StatusPart(q);
  }

  /** `all` (like an absent key) adds no category clause; any other value adds one. */
  /** A given date is the first filter: `DATE(e.event_date) = ?` bound to the
      date text as sent. */
  lemma DateGiven(q: SearchQuery)
    requires q.date != ""
    ensures SearchPredicates(q)[0] == Equals("DATE(e.event_date)", SqlText(q.date))
  {
  }

  /** A category other than `all` binds `parseInt(category)` without a radix,
      after the date and location filters that are given. */
  lemma CategoryBound(q: SearchQuery)
    requires q.category != "" && q.category != "all"
    ensures var k := |DatePart(q)| + |LocationPart(q)|;
      SearchPredicates(q)[k] == Equals("e.category_id", SqlNumber(ParseIntAuto(q.category)))
  {
    var front := DatePart(q) + LocationPart(q);
    assert SearchPredicates(q) == front + CategoryPart(q) + StatusPart(q);
  }

  /** Without a radix a category text that is not a number binds NaN, and a
      hexadecimal one binds its value. */
  lemma CategoryTextsBound()
    ensures CategoryPart(SearchQuery("", "", "abc", "")) == [Equals("e.category_id", SqlNumber(NaN))]
    ensures CategoryPart(SearchQuery("", "", "0x1A", "")) == [Equals("e.category_id", SqlNumber(Int(26)))]
  {
    var abc, hex := SearchQuery("", "", "abc", ""), SearchQuery("", "", "0x1A", "");
    assert abc.category != "" && abc.category != "all";
    assert hex.category != "" && hex.category != "all";
    AbcNotANumber();
    HexIdRead();
    assert CategoryPart(abc) == [Equals("e.category_id", SqlNumber(ParseIntAuto("abc")))];
    assert CategoryPart(hex) == [Equals("e.category_id", SqlNumber(ParseIntAuto("0x1A")))];
  }

  lemma AbcNotANumber()
    ensures ParseIntAuto("abc") == NaN
  {
    assert TrimStart("abc") == "abc";
    assert SignOf("abc").1 == "abc";
    assert DigitPrefix("abc") == [];
  }

  /** A status other than `all` is the last filter, bound to the status text
      as sent. */
  lemma StatusBound(q: SearchQuery)
    requires q.status != "" && q.status != "all"
    ensures var ps := SearchPredicates(q);
      ps[|ps| - 1] == Equals("e.status", SqlText(q.status))
  {
  }

  lemma CategoryWildcard(q: SearchQuery)
    ensures (exists p | p in SearchPredicates(q) :: p.column == "e.category_id") <==> q.category != "" && q.category != "all"
  {
    forall p | p in SearchPredicates(q)
      ensures p.column == "e.category_id" <==> p in CategoryPart(q)
    {
      InSomePart(q, p);
    }
    if CategoryPart(q) != [] {
      InSomePart(q, CategoryPart(q)[0]);
    }
  }

  /** `all` (like an absent key) adds no status clause; any other value adds one. */
  lemma StatusWildcard(q: SearchQuery)
    ensures (exists p | p in SearchPredicates(q) :: p.column == "e.status") <==> q.status != "" && q.status != "all"
  {
    forall p | p in SearchPredicates(q)
      ensures p.column == "e.status" <==> p in StatusPart(q)
    {
      InSomePart(q, p);
    }
    if StatusPart(q) != [] {
      InSomePart(q, StatusPart(q)[0]);
    }
  }

  /** The columns the search filters on. */
  const SearchColumns: seq<string> := ["DATE(e.event_date)", "e.location", "e.category_id", "e.status"]

  lemma SearchColumnsPlain()
    ensures forall c | c in SearchColumns :: '?' !in c
  {
    assert '?' !in "DATE(e.event_date)";
    assert '?' !in "e.location";
    assert '?' !in "e.category_id";
    assert '?' !in "e.status";
  }

  /** Every clause of the search names a column without a `?`. */
  lemma PredicatesPlain(q: SearchQuery)
    ensures forall p | p in SearchPredicates(q) :: PlainColumn(p)
  {
    SearchColumnsPlain();
    forall p | p in SearchPredicates(q)
      ensures p.column in SearchColumns
    {
      InSomePart(q, p);
    }
  }

  /** One ` AND ` clause adds the `?`s of its text. */
  lemma AndStep(a: string, c: string)
    ensures Placeholders(a + " AND " + c) == Placeholders(a) + Placeholders(c)
  {
    PlaceholdersAppend(a, " AND ");
    PlaceholdersAppend(a + " AND ", c);
    NoPlaceholders(" AND ");
  }

  /** Each ` AND ` clause adds one `?` per value it binds. */
  lemma {:induction false} FiltersPlaceholders(head: string, ps: seq<Predicate>)
    requires forall p | p in ps :: PlainColumn(p)
    ensures Placeholders(WithFilters(head, ps)) == Placeholders(head) + |Bindings(ps)|
    decreases |ps|
  {
    if ps != [] {
      var init, last := ps[..|ps| - 1], ps[|ps| - 1];
      LastSplit(ps);
      FiltersPlaceholders(head, init);
      LastBinds(init, last);
      TextPlaceholders(last);
      AndStep(WithFilters(head, init), ClauseText(last));
    }
  }

  lemma LastSplit(ps: seq<Predicate>)
    requires ps != []
    ensures ps[..|ps| - 1] + [ps[|ps| - 1]] == ps
    ensures forall p | p in ps[..|ps| - 1] :: p in ps
    ensures ps[|ps| - 1] in ps
  {
  }

  lemma LastBinds(init: seq<Predicate>, last: Predicate)
    ensures Bindings(init + [last]) == Bindings(init) + Binds(last)
  {
    TextsAppend(init, [last]);
    assert Bindings([last]) == Binds(last) + Bindings([]);
  }

  lemma DescriptionColumnsPlain()
    ensures forall c | c in DescriptionColumns :: '?' !in c
  {
    assert '?' !in "e.id" && '?' !in "e.name";
    assert '?' !in "e.description";
    assert '?' !in "e.event_date" && '?' !in "e.location";
  }

  lemma FigureColumnsPlain()
    ensures forall c | c in FigureColumns :: '?' !in c
  {
    assert '?' !in "e.target_amount";
    assert '?' !in "e.current_amount";
    assert '?' !in "e.ticket_price" && '?' !in "e.is_free";
    assert '?' !in "e.max_participants";
    assert '?' !in "e.current_participants";
  }

  lemma NameColumnsPlain()
    ensures forall c | c in NameColumns :: '?' !in c
  {
    assert '?' !in "e.status" && '?' !in "e.image_url";
    assert '?' !in "c.name as category_name";
    assert '?' !in "o.name as organization_name";
  }

  lemma ColumnsPlain()
    ensures '?' !in Join(EventColumns, ", ")
  {
    DescriptionColumnsPlain();
    FigureColumnsPlain();
    NameColumnsPlain();
    JoinNoMark(EventColumns, ", ");
  }

  lemma JoinsPlain()
    ensures '?' !in CategoryJoin && '?' !in OrganizationJoin
  {
    assert '?' !in " JOIN categories c";
    assert '?' !in " ON e.category_id = c.id";
    assert '?' !in " JOIN organizations o";
    assert '?' !in " ON e.organization_id = o.id";
  }

  lemma FromPlain()
    ensures '?' !in FromClause
  {
    JoinsPlain();
    assert '?' !in "FROM events e";
    assert '?' !in " WHERE e.status IN";
    assert '?' !in " ('upcoming', 'ongoing')";
  }

  lemma HeadPlain()
    ensures Placeholders(SearchHead()) == 0 && Placeholders(SearchOrder) == 0
  {
    ColumnsPlain();
    FromPlain();
    SelectPlain(Join(EventColumns, ", "), FromClause);
    NoPlaceholders(SearchHead());
    OrderPlain();
  }

  lemma OrderPlain()
    ensures Placeholders(SearchOrder) == 0
  {
    assert '?' !in " ORDER BY e.event_date ASC";
    NoPlaceholders(SearchOrder);
  }

  lemma SelectPlain(columns: string, from: string)
    requires '?' !in columns && '?' !in from
    ensures '?' !in "SELECT " + columns + " " + from
  {
    assert '?' !in "SELECT " && '?' !in " ";
  }

  /** The statement holds exactly one `?` per value in `params`, so the driver
      binds every value to the clause that asked for it. */
  lemma Framed(head: string, ps: seq<Predicate>, tail: string)
    requires Placeholders(head) == 0 && Placeholders(tail) == 0
    requires forall p | p in ps :: PlainColumn(p)
    ensures Placeholders(WithFilters(head, ps) + tail) == |Bindings(ps)|
  {
    FiltersPlaceholders(head, ps);
    PlaceholdersAppend(WithFilters(head, ps), tail);
  }

  // ---------------------------------------------------------------------------
  // One event by id

  /** The handler's reply: the HTTP status, the body's flag, message and event. */
  datatype Reply = Reply(status: int, success: bool, message: string, data: Option<EventRow>)

  /** `GET /api/events/:id`: a path id that `parseInt` cannot read is refused
      before any query; otherwise the first row the query returns is the event,
      none is 404, and a failed query is 500. */
  function EventById(idText: string, query: int -> Result<seq<EventRow>>): (r: Reply)
    ensures r.status == 400 <==> ParseIntAuto(idText).NaN?
    ensures r.status == 404 <==> ParseIntAuto(idText).Int? && query(ParseIntAuto(idText).value) == Ok([])
    ensures r.status == 500 <==> ParseIntAuto(idText).Int? && query(ParseIntAuto(idText).value).Err?
    ensures r.success <==> r.status == 200
    ensures r.success ==> r.data.Some? && query(ParseIntAuto(idText).value).Ok?
    ensures r.success ==> r.data.value == query(ParseIntAuto(idText).value).value[0]
  {
    match ParseIntAuto(idText)
    case NaN => Reply(400, false, "无效的活动ID", None)
    case Int(id) =>
      match query(id)
      case Err(_) => Reply(500, false, "获取活动详情失败", None)
      case Ok(rows) =>
        if rows == [] then Reply(404, false, "活动不存在", None)
        else Reply(200, true, "", Some(rows[0]))
  }

  /** A refused id does not depend on the database at all. */
  lemma RefusedBeforeQuery(idText: string, query1: int -> Result<seq<EventRow>>, query2: int -> Result<seq<EventRow>>)
    requires EventById(idText, query1).status == 400
    ensures EventById(idText, query2) == EventById(idText, query1)
  {
  }

  /** `parseInt` reads a leading number and ignores what follows, so a path
      id such as `12abc` is looked up as 12 rather than refused. */
  lemma TrailingTextIgnored()
    ensures ParseIntAuto("12abc") == Int(12)
  {
    assert "12abc" == "12" + "abc";
    ParseDigitsThenText("12", "abc");
    assert DigitsValue("12") == 12;
  }

  /** Without a radix, `parseInt` reads `0x1A` as hexadecimal 26. */
  lemma HexIdRead()
    ensures ParseIntAuto("0x1A") == Int(26)
  {
    var body := SignOf(TrimStart("0x1A")).1;
    assert TrimStart("0x1A") == "0x1A";
    assert body == "0x1A";
    assert body[2..] == "1A";
    assert HexPrefix("") == [];
    assert HexPrefix("A") == "A";
    assert HexPrefix("1A") == "1A";
    assert HexValue("1A") == 26;
  }
}
