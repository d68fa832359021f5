/** What the activity listing promises: the shape of its predicate list, the
    alignment of placeholders and values, and the statements it sends. */
module ActivityModelFacts {
  import opened Strings
  import opened Js
  import opened DbConfig
  import opened Sql
  import opened ActivityModel

  // ---------------------------------------------------------------------------
  // The kind of predicate each group contributes.

  lemma LikeKind(params: Params, key: string, column: string)
    ensures forall p | p in LikeFilter(params, key, column) :: p.Like? && p.column == column
  {
  }

  lemma CreatedKind(params: Params, key: string)
    ensures forall p | p in CreatedFilter(params, key) :: (p.Equals? || p.Between?) && p.column == CreateColumn
  {
  }

  lemma BoundsKind(params: Params)
    ensures forall p | p in BoundsFilter(params) :: p.Between? && p.column == CreateColumn
  {
  }

  /** Every predicate of the activity group names a column without `?`. */
  lemma GroupPlain(ps: seq<Predicate>, params: Params, createdKey: string, compare: string)
    requires forall p | p in ps :: PlainColumn(p)
    ensures forall p | p in WithActivityGroup(ps, params, createdKey, compare) :: PlainColumn(p)
  {
    LikeKind(params, "location", "ac.location");
    CreatedKind(params, createdKey);
    BoundsKind(params);
    assert '?' !in "ac.location" && '?' !in CreateColumn && '?' !in "ac.expirationtime";
  }

  /** The clauses hold exactly one `?` per bound value, in order: the text before
      the k-th predicate holds as many placeholders as the values bound by the
      predicates before it. */
  lemma FiltersAligned(params: Params, compare: string)
    ensures Placeholders(WhereSql(Texts(Filters(params, compare)))) == |Bindings(Filters(params, compare))|
    ensures forall k | 0 < k < |Filters(params, compare)| ::
      Placeholders(Join(Texts(Filters(params, compare)[..k]), Conjunction) + Conjunction)
        == |Bindings(Filters(params, compare)[..k])|
  {
    var ps := Filters(params, compare);
    assert '?' !in "ac.status";
    GroupPlain([StatusFilter(params)], params, "createtime", compare);
    assert forall i | 0 <= i < |ps| :: ps[i] in ps;
    WhereSqlPlaceholders(ps);
    forall k | 0 < k < |ps|
      ensures Placeholders(Join(Texts(ps[..k]), Conjunction) + Conjunction) == |Bindings(ps[..k])|
    {
      PrefixPlaceholders(ps, k);
    }
  }

  /** The expiration predicate is the last one and appears nowhere else. */
  lemma ExpirationLast(params: Params, compare: string)
    ensures var ps := Filters(params, compare);
      ps[|ps| - 1] == After("ac.expirationtime", compare)
      && forall i | 0 <= i < |ps| - 1 :: !ps[i].After?
  {
    var ps := Filters(params, compare);
    var head := [StatusFilter(params)] + LikeFilter(params, "location", "ac.location")
      + CreatedFilter(params, "createtime") + BoundsFilter(params);
    assert ps == head + [After("ac.expirationtime", compare)];
    LikeKind(params, "location", "ac.location");
    CreatedKind(params, "createtime");
    BoundsKind(params);
    assert forall p | p in head :: !p.After?;
    forall i | 0 <= i < |ps| - 1
      ensures !ps[i].After?
    {
      assert ps[i] == head[i] && head[i] in head;
    }
  }

  /** A truthy `location` adds one LIKE predicate right after the status, bound
      to `%location%`. */
  lemma LocationGiven(params: Params, compare: string)
    requires "location" in params && Truthy(params["location"])
    ensures Filters(params, compare)[1] == Like("ac.location", ToText(params["location"]))
    ensures Binds(Filters(params, compare)[1]) == [SqlText("%" + ToText(params["location"]) + "%")]
  {
    var location := LikeFilter(params, "location", "ac.location");
    assert location == [Like("ac.location", ToText(params["location"]))];
    SecondOf([StatusFilter(params)], location, CreatedFilter(params, "createtime"), BoundsFilter(params),
             [After("ac.expirationtime", compare)]);
  }

  lemma SecondOf(a: seq<Predicate>, b: seq<Predicate>, c: seq<Predicate>, d: seq<Predicate>, e: seq<Predicate>)
    requires |a| == 1 && |b| == 1
    ensures (a + b + c + d + e)[1] == b[0]
  {
  }

  /** Without a truthy `location` no predicate is a LIKE. */
  lemma LocationMissing(params: Params, compare: string)
    requires !("location" in params && Truthy(params["location"]))
    ensures forall p | p in Filters(params, compare) :: !p.Like?
  {
    assert LikeFilter(params, "location", "ac.location") == [];
    CreatedKind(params, "createtime");
    BoundsKind(params);
  }

  /** The listing filters by location exactly when `location` is truthy. */
  lemma LocationClause(params: Params, compare: string)
    ensures ("location" in params && Truthy(params["location"]))
      <==> exists p | p in Filters(params, compare) :: p.Like?
  {
    if "location" in params && Truthy(params["location"]) {
      LocationGiven(params, compare);
      assert Filters(params, compare)[1] in Filters(params, compare);
    } else {
      LocationMissing(params, compare);
    }
  }

  // ---------------------------------------------------------------------------
  // The creation filter.

  /** `createtime=m,n` selects the range m..n. */
  lemma CreatedRange(m: int, n: int)
    ensures CreatedPredicate(Text(IntToString(m) + "," + IntToString(n))) == Between(CreateColumn, Int(m), Int(n))
  {
    var a, b := IntToString(m), IntToString(n);
    IntToStringChars(m);
    IntToStringChars(n);
    FieldPair(a, ',', b);
    assert a + "," + b == a + [','] + b;
    ParseIntRendered(m);
    ParseIntRendered(n);
  }

  /** An array of two or more integers selects the range of the first two. */
  lemma CreatedPairList(m: int, n: int, rest: seq<string>)
    ensures CreatedPredicate(List([IntToString(m), IntToString(n)] + rest)) == Between(CreateColumn, Int(m), Int(n))
  {
    var items := [IntToString(m), IntToString(n)] + rest;
    assert items[0] == IntToString(m) && items[1] == IntToString(n);
    ParseIntRendered(m);
    ParseIntRendered(n);
  }

  /** A single integer selects equality. */
  lemma CreatedSingle(n: int)
    ensures CreatedPredicate(Text(IntToString(n))) == Equals(CreateColumn, SqlNumber(Int(n)))
  {
    IntToStringChars(n);
    ParseIntRendered(n);
  }

  /** A trailing comma leaves the upper end of the range NaN: `'5,'.split(',')`
      is `['5', '']` and `parseInt('')` is NaN. */
  lemma CreatedOpenRange(m: int)
    ensures CreatedPredicate(Text(IntToString(m) + ",")) == Between(CreateColumn, Int(m), NaN)
  {
    var a := IntToString(m);
    IntToStringChars(m);
    FieldPair(a, ',', "");
    assert a + "," == a + [','] + "";
    ParseIntRendered(m);
  }

  /** The explicit range appears iff one of its four parameters is present;
      `createtime_start` wins over `starttime` and `createtime_end` over
      `endtime`; the missing ends are 0 and `MAX_SAFE_INTEGER`. */
  lemma BoundsPriority(params: Params)
    ensures BoundsFilter(params) == [] <==>
      "createtime_start" !in params && "starttime" !in params && "createtime_end" !in params && "endtime" !in params
    ensures BoundsFilter(params) != [] ==> BoundsFilter(params)[0].Between? && BoundsFilter(params)[0].column == "ac.createtime"
    ensures BoundsFilter(params) != [] ==>
      BoundsFilter(params)[0].low == (
        if "createtime_start" in params then ParseIntValue(params["createtime_start"])
        else if "starttime" in params then ParseIntValue(params["starttime"])
        else Int(0))
    ensures BoundsFilter(params) != [] ==>
      BoundsFilter(params)[0].high == (
        if "createtime_end" in params then ParseIntValue(params["createtime_end"])
        else if "endtime" in params then ParseIntValue(params["endtime"])
        else Int(9007199254740991))
  {
  }

  // ---------------------------------------------------------------------------
  // The compare time.

  /** A numeric `compare_time` decides the compare time, whatever `createtime`
      says. */
  lemma CompareTimeWins(params: Params, nowMs: int, zone: int, n: int)
    requires "compare_time" in params && params["compare_time"] == Text(IntToString(n))
    ensures CompareText(params, nowMs, zone) == FormatDateTimeFromUnix(Int(n), zone)
  {
    RenderedParameter(n);
  }

  /** Without `compare_time`, a numeric `createtime` decides it. */
  lemma CreatetimeCompares(params: Params, nowMs: int, zone: int, n: int)
    requires "compare_time" !in params && "createtime" in params && params["createtime"] == Text(IntToString(n))
    ensures CompareText(params, nowMs, zone) == FormatDateTimeFromUnix(Int(n), zone)
  {
    RenderedParameter(n);
  }

  /** A range text such as `1,2` is not numeric: it filters the creation time
      but leaves the current time as the compare time. */
  lemma RangeNotCompared(params: Params, nowMs: int, zone: int, range: string)
    requires "compare_time" !in params && "createtime" in params && params["createtime"] == Text(range)
    requires ',' in range
    ensures CompareText(params, nowMs, zone) == FormatDateTime(Int(nowMs), zone)
  {
    CommaNotNumber(range);
  }

  /** `compare_time=0` compares with the epoch. */
  lemma CompareTimeZero(nowMs: int)
    ensures CompareText(map["compare_time" := Text("0")], nowMs, 0) == "1970-01-01 00:00:00"
  {
    assert IntToString(0) == "0";
    CompareTimeWins(map["compare_time" := Text("0")], nowMs, 0, 0);
    EpochText();
  }

  /** With only `compare_time` given, the listing keeps normal activities that
      expire after the compare time: `compare_time=0` does not drop the
      expiration predicate, it binds the epoch, which every stored expiration
      follows. */
  lemma CompareTimeOnly(n: int, compare: string)
    ensures Filters(map["compare_time" := Text(IntToString(n))], compare)
      == [Equals("ac.status", SqlText("normal")), After("ac.expirationtime", compare)]
  {
  }

  // ---------------------------------------------------------------------------
  // The statements.

  lemma RewardColumnsPlain()
    ensures forall c | c in RewardColumns :: '?' !in c
  {
    assert '?' !in "ar.id AS reward_id" && '?' !in "ar.registration_fee";
    assert '?' !in "ar.participant_count";
    assert '?' !in "ar.havemoney AS reward_havemoney";
    assert '?' !in "ar.status AS reward_status";
  }

  lemma ListColumnsPlain()
    ensures '?' !in Join(ListColumns, ", ")
  {
    RewardColumnsPlain();
    assert '?' !in "ac.*";
    JoinNoMark(ListColumns, ", ");
  }

  lemma CountHeadPlain(prefix: string)
    requires '?' !in prefix
    ensures '?' !in CountHead(prefix)
  {
    assert '?' !in "SELECT COUNT(*) AS cnt FROM ";
    assert '?' !in "activity" && '?' !in " ac ";
  }

  lemma JoinPlain(prefix: string)
    requires '?' !in prefix
    ensures '?' !in JoinSql(prefix)
  {
    assert '?' !in "LEFT JOIN " && '?' !in "activity_reward";
    assert '?' !in " ar ON ar.activity_id = ac.id";
  }

  /** The frame of the list head holds no `?` when its parts hold none. */
  lemma SelectPlain(prefix: string, columns: string, join: string)
    requires '?' !in prefix && '?' !in columns && '?' !in join
    ensures '?' !in "SELECT " + columns + " FROM " + GetTable(prefix, "activity") + " ac " + join + " "
  {
    assert '?' !in "SELECT " && '?' !in " FROM " && '?' !in "activity" && '?' !in " ac " && '?' !in " ";
  }

  lemma ListHeadPlain(prefix: string)
    requires '?' !in prefix
    ensures '?' !in ListHead(prefix) && '?' !in ListOrder
  {
    ListColumnsPlain();
    JoinPlain(prefix);
    SelectPlain(prefix, Join(ListColumns, ", "), JoinSql(prefix));
  }

  /** The count statement holds one `?` per value it binds and its text after
      the head is the WHERE text. A table prefix holding `?` would break this. */
  lemma CountAligned(prefix: string, ps: seq<Predicate>)
    requires '?' !in prefix
    requires forall p | p in ps :: PlainColumn(p)
    ensures Placeholders(CountStatement(prefix, ps).sql) == |CountStatement(prefix, ps).values|
    ensures CountStatement(prefix, ps).sql[|CountHead(prefix)|..] == WhereSql(Texts(ps))
  {
    var head, where := CountHead(prefix), WhereSql(Texts(ps));
    CountHeadPlain(prefix);
    assert forall i | 0 <= i < |ps| :: ps[i] in ps;
    WhereSqlPlaceholders(ps);
    FramedPlaceholders(head, where, "");
    assert (head + where)[|head|..] == where;
  }

  /** The list statement holds one `?` per value it binds; it binds the count
      statement's values followed by limit and offset, and its WHERE text sits
      right after its head. */
  lemma ListAligned(prefix: string, ps: seq<Predicate>, paging: Paging)
    requires '?' !in prefix
    requires forall p | p in ps :: PlainColumn(p)
    ensures Placeholders(ListStatement(prefix, ps, paging).sql) == |ListStatement(prefix, ps, paging).values|
    ensures ListStatement(prefix, ps, paging).values
      == CountStatement(prefix, ps).values + [SqlNumber(paging.limit), SqlNumber(paging.offset)]
    ensures var head, where := ListHead(prefix), WhereSql(Texts(ps));
      ListStatement(prefix, ps, paging).sql[|head|..|head| + |where|] == where
  {
    ListHeadPlain(prefix);
    assert forall i | 0 <= i < |ps| :: ps[i] in ps;
    PagedFrame(ListHead(prefix), ps, ListOrder);
  }

  /** The statements of an activity search hold one `?` per value they bind. */
  lemma SearchAligned(prefix: string, params: Params, compare: string, paging: Paging)
    requires '?' !in prefix
    ensures var ps := Filters(params, compare);
      var count, list := CountStatement(prefix, ps), ListStatement(prefix, ps, paging);
      && Placeholders(count.sql) == |count.values|
      && Placeholders(list.sql) == |list.values|
  {
    assert '?' !in "ac.status";
    GroupPlain([StatusFilter(params)], params, "createtime", compare);
    CountAligned(prefix, Filters(params, compare));
    ListAligned(prefix, Filters(params, compare), paging);
  }
}
