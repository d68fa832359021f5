/** What the article listing promises: the columns of its predicates, the
    activity group alone when no article filter is given, and the alignment of
    its statements. */
module ActiveArticleFacts {
  import opened Strings
  import opened Js
  import opened DbConfig
  import opened Sql
  import opened ActivityModel
  import opened ActivityModelFacts
  import opened ActiveArticleModel

  /** Every predicate of the article listing names a column without `?`. */
  lemma AllPlain(params: Params, compare: string)
    ensures forall p | p in AllFilters(params, compare) :: PlainColumn(p)
  {
    LikeKind(params, "tag", "aa.Tag");
    LikeKind(params, "registration", "aa.Registration");
    assert '?' !in "aa.Tag" && '?' !in "aa.Tickets" && '?' !in "aa.Registration";
    GroupPlain([], params, "created_filter", compare);
  }

  /** Without its own filters, the article listing filters exactly as the
      activity listing does after its status predicate, with `created_filter`
      in place of `createtime`. */
  lemma ArticleGroupEmpty(params: Params, compare: string)
    requires "tag" !in params && "tickets" !in params && "registration" !in params
    ensures AllFilters(params, compare) == ActivityGroup(params, compare)
  {
    assert ArticleFilters(params) == [];
  }

  /** A truthy `tag` gives the first predicate, `aa.Tag LIKE %tag%`. */
  lemma TagGiven(params: Params)
    requires "tag" in params && Truthy(params["tag"])
    ensures ArticleFilters(params)[0] == Like("aa.Tag", ToText(params["tag"]))
    ensures Binds(ArticleFilters(params)[0]) == [SqlText("%" + ToText(params["tag"]) + "%")]
  {
  }

  /** A present `tickets` other than the empty text gives `aa.Tickets =
      String(tickets)`, right after the tag predicate when there is one. */
  lemma TicketsGiven(params: Params)
    requires "tickets" in params && params["tickets"] != Text("")
    ensures var k := if "tag" in params && Truthy(params["tag"]) then 1 else 0;
      ArticleFilters(params)[k] == Equals("aa.Tickets", SqlText(ToText(params["tickets"])))
  {
    var k := if "tag" in params && Truthy(params["tag"]) then 1 else 0;
    var tag, tickets := LikeFilter(params, "tag", "aa.Tag"), TicketsFilter(params);
    assert |tag| == k;
    assert (tag + tickets + LikeFilter(params, "registration", "aa.Registration"))[k] == tickets[0];
  }

  /** A truthy `registration` gives the last predicate of the group,
      `aa.Registration LIKE %registration%`. */
  lemma RegistrationGiven(params: Params)
    requires "registration" in params && Truthy(params["registration"])
    ensures var ps := ArticleFilters(params);
      ps[|ps| - 1] == Like("aa.Registration", ToText(params["registration"]))
  {
  }

  /** Tickets `"0"` is not the empty text, so unlike the `LIKE` filters it
      still filters. */
  lemma TicketsZeroFilters()
    ensures ArticleFilters(map["tickets" := Text("0")]) == [Equals("aa.Tickets", SqlText("0"))]
  {
  }

  /** The activity group reads its creation filter from `created_filter`:
      `createtime` does not change it (it only feeds the compare time). */
  lemma CreatetimeNotFiltered(params: Params, compare: string)
    ensures ActivityGroup(params, compare) == ActivityGroup(params - {"createtime"}, compare)
  {
    var q := params - {"createtime"};
    assert LikeFilter(params, "location", "ac.location") == LikeFilter(q, "location", "ac.location");
    assert CreatedFilter(params, "created_filter") == CreatedFilter(q, "created_filter");
    assert BoundsFilter(params) == BoundsFilter(q);
  }

  /** A present `created_filter` other than the empty text puts its creation
      predicate in the activity group, right after the location predicate. */
  lemma CreatedFilterGiven(params: Params, compare: string)
    requires "created_filter" in params && params["created_filter"] != Text("")
    ensures var k := if "location" in params && Truthy(params["location"]) then 1 else 0;
      ActivityGroup(params, compare)[k] == CreatedPredicate(params["created_filter"])
  {
    var front := [] + LikeFilter(params, "location", "ac.location");
    assert |front| == if "location" in params && Truthy(params["location"]) then 1 else 0;
    var created := CreatedFilter(params, "created_filter");
    var back := BoundsFilter(params) + [After("ac.expirationtime", compare)];
    assert ActivityGroup(params, compare) == front + created + back;
    PartAt(front, created, back);
  }

  lemma PartAt<T>(front: seq<T>, part: seq<T>, back: seq<T>)
    requires part != []
    ensures (front + part + back)[|front|] == part[0]
  {
  }

  // ---------------------------------------------------------------------------
  // The statements.

  lemma ArticleColumnsPlain()
    ensures forall c | c in ArticleColumns :: '?' !in c
  {
    assert '?' !in "aa.Id AS article_id" && '?' !in "aa.Id AS article_detail_id";
    assert '?' !in "aa.Tag" && '?' !in "aa.Tickets";
    assert '?' !in "aa.Articlecontent" && '?' !in "aa.updatetime";
  }

  lemma ActivityColumnsPlain()
    ensures forall c | c in ActivityColumns :: '?' !in c
  {
    assert '?' !in "ac.id AS activity_id" && '?' !in "ac.background_image";
    assert '?' !in "ac.title" && '?' !in "ac.subtitle" && '?' !in "ac.status";
    assert '?' !in "ac.createtime" && '?' !in "ac.expirationtime";
    assert '?' !in "ac.deletetime" && '?' !in "ac.currency_type";
    assert '?' !in "ac.location" && '?' !in "ac.target_amount";
  }

  lemma ArticleJoinPlain(prefix: string)
    requires '?' !in prefix
    ensures '?' !in ArticleJoinSql(prefix)
  {
    JoinPlain(prefix);
    ArticleJoinFirstPlain(prefix);
  }

  lemma ArticleJoinFirstPlain(prefix: string)
    requires '?' !in prefix
    ensures '?' !in ActivityJoinSql(prefix)
  {
    assert '?' !in "LEFT JOIN " && '?' !in "activity";
    assert '?' !in " ac ON ac.article_detail_id = aa.Id";
  }

  /** The frame of both article heads holds no `?` when its parts hold none. */
  lemma ArticleFramePlain(prefix: string, start: string, join: string)
    requires '?' !in prefix && '?' !in start && '?' !in join
    ensures '?' !in start + GetTable(prefix, "active_article") + " aa " + join + " "
  {
    assert '?' !in "active_article" && '?' !in " aa " && '?' !in " ";
  }

  lemma ArticleHeadsPlain(prefix: string)
    requires '?' !in prefix
    ensures '?' !in ArticleCountHead(prefix) && '?' !in ArticleListHead(prefix) && '?' !in ArticleOrder
  {
    ArticleJoinPlain(prefix);
    ArticleFramePlain(prefix, "SELECT COUNT(*) AS cnt FROM ", ArticleJoinSql(prefix));
    var columns := ArticleColumns + ActivityColumns + RewardColumns;
    ArticleColumnsPlain();
    ActivityColumnsPlain();
    RewardColumnsPlain();
    JoinNoMark(columns, ", ");
    ArticleFramePlain(prefix, "SELECT " + Join(columns, ", ") + " FROM ", ArticleJoinSql(prefix));
    assert '?' !in " ORDER BY aa.Id DESC";
  }

  /** Both statements of an article search hold one `?` per value they bind,
      and the list statement binds the count statement's values followed by
      limit and offset. */
  lemma ArticleStatementsAligned(prefix: string, params: Params, compare: string, paging: Paging)
    requires '?' !in prefix
    ensures var ps := AllFilters(params, compare);
      var count, list := ArticleCountStatement(prefix, ps), ArticleListStatement(prefix, ps, paging);
      && Placeholders(count.sql) == |count.values|
      && Placeholders(list.sql) == |list.values|
      && list.values == count.values + [SqlNumber(paging.limit), SqlNumber(paging.offset)]
  {
    var ps := AllFilters(params, compare);
    AllPlain(params, compare);
    assert forall i | 0 <= i < |ps| :: ps[i] in ps;
    ArticleHeadsPlain(prefix);
    WhereSqlPlaceholders(ps);
    FramedPlaceholders(ArticleCountHead(prefix), WhereSql(Texts(ps)), "");
    PagedFrame(ArticleListHead(prefix), ps, ArticleOrder);
  }
}
