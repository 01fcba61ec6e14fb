/**
  The composed query (src/query_filter.rs): the sorting, page size and offset directives
  and the caller's own filters, all read from the same query string. The inner filter
  type's `FromStr` is a parameter; `UserFilter` is the hand-written instance of the
  source's integration tests (a string filter on `name`, a number filter on `age`, an
  equality filter on `active`).
*/
module QueryFilters {
  import opened Wrappers
  import opened Errors
  import opened FilterIds
  import opened Common
  import opened Scalars
  import Ordering
  import Limits
  import Skips
  import NumberFilters
  import StringFilters
  import EqualFilters

  datatype FromQueryFilter<T> = FromQueryFilter(
    inner: T,
    orderBy: Option<Ordering.OrderBy>,
    limit: Option<Limits.Limit>,
    skip: Option<Skips.Skip>)

  /** The sorting step: re-scoped under the inner type's table prefix when it declares one. */
  function OrderStep(query: string, filterId: Option<string>): Result<Option<Ordering.OrderBy>, FilterParseError> {
    if filterId.Some? then Ordering.FromStrPrefix(filterId.value, query) else Ordering.FromStr(query)
  }

  /**
    `FromQueryFilter::from_str`: sorting, then page size, then offset, then the inner
    filters, each reading the whole query. `filterId` is the inner type's
    `WithFilterId::filter_id`. The composed parse succeeds exactly when all four steps do,
    and then holds each step's own result, so no step depends on another; when it fails,
    the error is that of the first failing step in the order sorting, page size, offset,
    inner filters.
  */
  function FromStr<T>(query: string, filterId: Option<string>, inner: string -> Result<T, FilterParseError>): (r: Result<FromQueryFilter<T>, FilterParseError>)
    ensures var (o, l, s, i) := (OrderStep(query, filterId), Limits.FromStr(query), Skips.FromStr(query), inner(query));
      && (r.Ok? <==> o.Ok? && l.Ok? && s.Ok? && i.Ok?)
      && (r.Ok? ==> r.value == FromQueryFilter(i.value, o.value, l.value, s.value))
      && (o.Err? ==> r == Err(o.error))
      && (o.Ok? && l.Err? ==> r == Err(l.error))
      && (o.Ok? && l.Ok? && s.Err? ==> r == Err(s.error))
      && (o.Ok? && l.Ok? && s.Ok? && i.Err? ==> r == Err(i.error))
  {
    match OrderStep(query, filterId)
    case Err(e) => Err(e)
    case Ok(orderBy) =>
      match Limits.FromStr(query)
      case Err(e) => Err(e)
      case Ok(limit) =>
        match Skips.FromStr(query)
        case Err(e) => Err(e)
        case Ok(skip) =>
          match inner(query)
          case Err(e) => Err(e)
          case Ok(i) => Ok(FromQueryFilter(i, orderBy, limit, skip))
  }

  /** With a table prefix the directive is re-scoped under it; without one it is the plain directive. */
  lemma FromStrScopesOrdering<T>(query: string, filterId: Option<string>, inner: string -> Result<T, FilterParseError>)
    requires FromStr(query, filterId, inner).Ok?
    ensures var o := FromStr(query, filterId, inner).value.orderBy;
      && (filterId.None? ==> Ordering.FromStr(query) == Ok(o))
      && (filterId.Some? && o.Some? ==> o.value.id.Prefix() == Some(filterId.value))
  {
  }

  /** `empty`: the default inner filters and no directive. */
  function Empty<T>(default: T): (r: FromQueryFilter<T>)
    ensures r == FromInner(default)
  {
    FromQueryFilter(default, None, None, None)
  }

  /** `from_inner`: the given inner filters and no directive. */
  function FromInner<T>(inner: T): (r: FromQueryFilter<T>)
    ensures r.inner == inner && r.orderBy.None? && r.limit.None? && r.skip.None?
  {
    FromQueryFilter(inner, None, None, None)
  }

  // ---------------------------------------------------------------------------
  // The inner filters of the integration tests

  datatype UserFilter = UserFilter(
    name: StringFilters.StringFilters<string>,
    age: NumberFilters.NumberFilters<int>,
    active: EqualFilters.EqualFilter<bool>)

  /**
    `UserFilter::from_str`: the three fields in order, the first error winning. Each field
    is read from the whole query on its own and keeps its own field name as identifier.
  */
  function UserFilterFromStr(query: string): (r: Result<UserFilter, FilterParseError>)
    ensures var (n, a, b) := (StringFilters.FromStr("name", query, ParseString),
                              NumberFilters.FromStr("age", query, ParseI32),
                              EqualFilters.FromStr("active", query, ParseBool));
      && (r.Ok? <==> n.Ok? && a.Ok? && b.Ok?)
      && (r.Ok? ==> r.value == UserFilter(n.value, a.value, b.value))
      && (n.Err? ==> r == Err(n.error))
      && (n.Ok? && a.Err? ==> r == Err(a.error))
      && (n.Ok? && a.Ok? && b.Err? ==> r == Err(b.error))
    ensures r.Ok? ==>
      && r.value.name.id == Some(Alone("name"))
      && r.value.age.id == Some(Alone("age"))
      && r.value.active.id == Some(Alone("active"))
  {
    match StringFilters.FromStr("name", query, ParseString)
    case Err(e) => Err(e)
    case Ok(name) =>
      match NumberFilters.FromStr("age", query, ParseI32)
      case Err(e) => Err(e)
      case Ok(age) =>
        match EqualFilters.FromStr("active", query, ParseBool)
        case Err(e) => Err(e)
        case Ok(active) => Ok(UserFilter(name, age, active))
  }

  /** `UserFilter` declares no table prefix. */
  const UserFilterId: Option<string> := None

  /** The empty query gives empty inner filters, each under its own field, and no directive. */
  lemma EmptyQuery()
    ensures FromStr("", UserFilterId, UserFilterFromStr) == Ok(FromInner(UserFilter(
      StringFilters.StringFilters([], Some(Alone("name"))),
      NumberFilters.NumberFilters([], Some(Alone("age"))),
      EqualFilters.EqualFilter(None, Some(Alone("active"))))))
  {
  }

  /**
    The shape of the integration test's query, `name[sw]=Ali&age[gte]=18&age[lt]=30&active=true&limit=10&skip=5&order_by[desc]=age`,
    with its seven values left free.
  */
  datatype UserQuery = UserQuery(name: string, low: nat, high: nat, active: bool, limit: u64, skip: u64, sortField: string)

  predicate ValidUserQuery(u: UserQuery) {
    '&' !in u.name && u.low <= I32_MAX && u.high <= I32_MAX && '&' !in u.sortField
  }

  function BoolText(b: bool): string {
    if b then "true" else "false"
  }

  /** The seven segments of the query, as terms. */
  function UserQueryTerms(u: UserQuery): seq<Term> {
    [ Term("name", Some("sw"), u.name),
      Term("age", Some("gte"), Decimal(u.low)),
      Term("age", Some("lt"), Decimal(u.high)),
      Term("active", None, BoolText(u.active)),
      Term("limit", None, Decimal(u.limit as nat)),
      Term("skip", None, Decimal(u.skip as nat)),
      Term("order_by", Some("desc"), u.sortField) ]
  }

  lemma DecimalWithoutAmpersand(n: nat)
    ensures '&' !in Decimal(n)
  {
    var s := Decimal(n);
    forall j | 0 <= j < |s| ensures s[j] != '&' {
      assert IsDecimalDigit(s[j]);
    }
  }

  lemma UserQueryWellFormed(u: UserQuery)
    requires ValidUserQuery(u)
    ensures forall i :: 0 <= i < |UserQueryTerms(u)| ==> WellFormedTerm(UserQueryTerms(u)[i])
  {
    DecimalWithoutAmpersand(u.low);
    DecimalWithoutAmpersand(u.high);
    DecimalWithoutAmpersand(u.limit as nat);
    DecimalWithoutAmpersand(u.skip as nat);
  }

  /** The query read for any field, given what each of its seven terms contributes to it. */
  lemma UserQueryExtracted<V, T>(
    u: UserQuery, searchId: string,
    parse: string -> Option<V>, decode: (string, V) -> Result<T, FilterParseError>, picks: seq<Option<T>>
  )
    requires ValidUserQuery(u) && |picks| == 7
    requires forall i :: 0 <= i < 7 ==> TermContribution(searchId, UserQueryTerms(u)[i], parse, decode) == Ok(picks[i])
    ensures Extracted(searchId, RenderQuery(UserQueryTerms(u)), parse, decode) == Ok(Present(picks))
  {
    UserQueryWellFormed(u);
    ExtractedPicks(searchId, UserQueryTerms(u), parse, decode, picks);
  }

  /** What each of the seven terms contributes to `name`: the first term only. */
  lemma NamePicks(u: UserQuery)
    ensures var picks := [Some(StringFilters.StartsWith(u.name)), None, None, None, None, None, None];
      forall i :: 0 <= i < 7 ==> TermContribution("name", UserQueryTerms(u)[i], ParseString, StringFilters.Decode) == Ok(picks[i])
  {
    var picks := [Some(StringFilters.StartsWith(u.name)), None, None, None, None, None, None];
    var ts := UserQueryTerms(u);
    forall i | 0 <= i < 7 ensures TermContribution("name", ts[i], ParseString, StringFilters.Decode) == Ok(picks[i]) {
      if i == 0 {} else if i == 1 {} else if i == 2 {} else if i == 3 {} else if i == 4 {} else if i == 5 {} else {}
    }
  }

  /** Read for `name`, the query holds one `StartsWith` with the given prefix (`name[sw]=Ali`). */
  lemma UserQueryName(u: UserQuery)
    requires ValidUserQuery(u)
    ensures StringFilters.FromStr("name", RenderQuery(UserQueryTerms(u)), ParseString) ==
      Ok(StringFilters.StringFilters([StringFilters.StartsWith(u.name)], Some(Alone("name"))))
  {
    assert Extracted("name", RenderQuery(UserQueryTerms(u)), ParseString, StringFilters.Decode) == Ok([StringFilters.StartsWith(u.name)]) by {
      var picks := [Some(StringFilters.StartsWith(u.name)), None, None, None, None, None, None];
      PresentOne(picks, 0);
      NamePicks(u);
      UserQueryExtracted(u, "name", ParseString, StringFilters.Decode, picks);
    }
  }

  /** What each of the seven terms contributes to `age`: the second and third terms. */
  lemma AgePicks(u: UserQuery)
    requires ValidUserQuery(u)
    ensures var picks := [None, Some(NumberFilters.Gte(u.low as int)), Some(NumberFilters.Lt(u.high as int)), None, None, None, None];
      forall i :: 0 <= i < 7 ==> TermContribution("age", UserQueryTerms(u)[i], ParseI32, NumberFilters.Decode) == Ok(picks[i])
  {
    var picks := [None, Some(NumberFilters.Gte(u.low as int)), Some(NumberFilters.Lt(u.high as int)), None, None, None, None];
    var ts := UserQueryTerms(u);
    ParseI32OfDecimal(u.low);
    ParseI32OfDecimal(u.high);
    forall i | 0 <= i < 7 ensures TermContribution("age", ts[i], ParseI32, NumberFilters.Decode) == Ok(picks[i]) {
      if i == 0 {} else if i == 1 {} else if i == 2 {} else if i == 3 {} else if i == 4 {} else if i == 5 {} else {}
    }
  }

  /** Read for `age`, the query holds `Gte(low)` then `Lt(high)` (`age[gte]=18&age[lt]=30`). */
  lemma UserQueryAge(u: UserQuery)
    requires ValidUserQuery(u)
    ensures NumberFilters.FromStr("age", RenderQuery(UserQueryTerms(u)), ParseI32) ==
      Ok(NumberFilters.NumberFilters([NumberFilters.Gte(u.low as int), NumberFilters.Lt(u.high as int)], Some(Alone("age"))))
  {
    assert Extracted("age", RenderQuery(UserQueryTerms(u)), ParseI32, NumberFilters.Decode) == Ok([NumberFilters.Gte(u.low as int), NumberFilters.Lt(u.high as int)]) by {
      var picks := [None, Some(NumberFilters.Gte(u.low as int)), Some(NumberFilters.Lt(u.high as int)), None, None, None, None];
      PresentTwo(picks, 1);
      AgePicks(u);
      UserQueryExtracted(u, "age", ParseI32, NumberFilters.Decode, picks);
    }
  }

  /** What each of the seven terms contributes to `active`: the fourth term only. */
  lemma ActivePicks(u: UserQuery)
    ensures var picks := [None, None, None, Some(EqualFilters.EqualFilter(Some(u.active), Some(EqualFilters.Placeholder))), None, None, None];
      forall i :: 0 <= i < 7 ==> TermContribution("active", UserQueryTerms(u)[i], ParseBool, EqualFilters.Decode) == Ok(picks[i])
  {
    var picks := [None, None, None, Some(EqualFilters.EqualFilter(Some(u.active), Some(EqualFilters.Placeholder))), None, None, None];
    var ts := UserQueryTerms(u);
    assert ParseBool(BoolText(u.active)) == Some(u.active);
    forall i | 0 <= i < 7 ensures TermContribution("active", ts[i], ParseBool, EqualFilters.Decode) == Ok(picks[i]) {
      if i == 0 {} else if i == 1 {} else if i == 2 {} else if i == 3 {} else if i == 4 {} else if i == 5 {} else {}
    }
  }

  /** Read for `active`, the query holds the given flag (`active=true`). */
  lemma UserQueryActive(u: UserQuery)
    requires ValidUserQuery(u)
    ensures EqualFilters.FromStr("active", RenderQuery(UserQueryTerms(u)), ParseBool) ==
      Ok(EqualFilters.EqualFilter(Some(u.active), Some(Alone("active"))))
  {
    var f := EqualFilters.EqualFilter(Some(u.active), Some(EqualFilters.Placeholder));
    assert Extracted("active", RenderQuery(UserQueryTerms(u)), ParseBool, EqualFilters.Decode) == Ok([f]) by {
      var picks := [None, None, None, Some(f), None, None, None];
      PresentOne(picks, 3);
      ActivePicks(u);
      UserQueryExtracted(u, "active", ParseBool, EqualFilters.Decode, picks);
    }
  }

  /** What each of the seven terms contributes to `limit`: the fifth term only. */
  lemma LimitPicks(u: UserQuery)
    requires ValidUserQuery(u)
    ensures var picks := [None, None, None, None, Some(Limits.Limit(u.limit)), None, None];
      forall i :: 0 <= i < 7 ==> TermContribution(Limits.LimitName, UserQueryTerms(u)[i], ParseU64, Limits.Decode) == Ok(picks[i])
  {
    var ts := UserQueryTerms(u);
    ParseU64OfDecimal(u.limit);
    var lp := [None, None, None, None, Some(Limits.Limit(u.limit)), None, None];
    forall i | 0 <= i < 7 ensures TermContribution(Limits.LimitName, ts[i], ParseU64, Limits.Decode) == Ok(lp[i]) {
      if i == 0 {} else if i == 1 {} else if i == 2 {} else if i == 3 {} else if i == 4 {} else if i == 5 {} else {}
    }
  }

  /** What each of the seven terms contributes to `skip`: the sixth term only. */
  lemma SkipPicks(u: UserQuery)
    requires ValidUserQuery(u)
    ensures var picks := [None, None, None, None, None, Some(Skips.Skip(u.skip)), None];
      forall i :: 0 <= i < 7 ==> TermContribution(Skips.SkipName, UserQueryTerms(u)[i], ParseU64, Skips.Decode) == Ok(picks[i])
  {
    var ts := UserQueryTerms(u);
    ParseU64OfDecimal(u.skip);
    var sp := [None, None, None, None, None, Some(Skips.Skip(u.skip)), None];
    forall i | 0 <= i < 7 ensures TermContribution(Skips.SkipName, ts[i], ParseU64, Skips.Decode) == Ok(sp[i]) {
      if i == 0 {} else if i == 1 {} else if i == 2 {} else if i == 3 {} else if i == 4 {} else if i == 5 {} else {}
    }
  }

  /** What each of the seven terms contributes to `order_by`: the seventh term only. */
  lemma OrderPicks(u: UserQuery)
    ensures var picks := [None, None, None, None, None, None, Some(Ordering.Desc(Alone(u.sortField)))];
      forall i :: 0 <= i < 7 ==> TermContribution(Ordering.OrderByName, UserQueryTerms(u)[i], ParseString, Ordering.Decode) == Ok(picks[i])
  {
    var ts := UserQueryTerms(u);
    var op := [None, None, None, None, None, None, Some(Ordering.Desc(Alone(u.sortField)))];
    forall i | 0 <= i < 7 ensures TermContribution(Ordering.OrderByName, ts[i], ParseString, Ordering.Decode) == Ok(op[i]) {
      if i == 0 {} else if i == 1 {} else if i == 2 {} else if i == 3 {} else if i == 4 {} else if i == 5 {} else {}
    }
  }

  /** The query's page size (`limit=10`). */
  lemma UserQueryLimit(u: UserQuery)
    requires ValidUserQuery(u)
    ensures Limits.FromStr(RenderQuery(UserQueryTerms(u))) == Ok(Some(Limits.Limit(u.limit)))
  {
    assert Extracted(Limits.LimitName, RenderQuery(UserQueryTerms(u)), ParseU64, Limits.Decode) == Ok([Limits.Limit(u.limit)]) by {
      var lp := [None, None, None, None, Some(Limits.Limit(u.limit)), None, None];
      PresentOne(lp, 4);
      LimitPicks(u);
      UserQueryExtracted(u, Limits.LimitName, ParseU64, Limits.Decode, lp);
    }
  }

  /** The query's offset (`skip=5`). */
  lemma UserQuerySkip(u: UserQuery)
    requires ValidUserQuery(u)
    ensures Skips.FromStr(RenderQuery(UserQueryTerms(u))) == Ok(Some(Skips.Skip(u.skip)))
  {
    assert Extracted(Skips.SkipName, RenderQuery(UserQueryTerms(u)), ParseU64, Skips.Decode) == Ok([Skips.Skip(u.skip)]) by {
      var sp := [None, None, None, None, None, Some(Skips.Skip(u.skip)), None];
      PresentOne(sp, 5);
      SkipPicks(u);
      UserQueryExtracted(u, Skips.SkipName, ParseU64, Skips.Decode, sp);
    }
  }

  /** The query's sorting: descending on the given field (`order_by[desc]=age`). */
  lemma UserQueryOrder(u: UserQuery)
    requires ValidUserQuery(u)
    ensures Ordering.FromStr(RenderQuery(UserQueryTerms(u))) == Ok(Some(Ordering.Desc(Alone(u.sortField))))
  {
    assert Extracted(Ordering.OrderByName, RenderQuery(UserQueryTerms(u)), ParseString, Ordering.Decode) == Ok([Ordering.Desc(Alone(u.sortField))]) by {
      var op := [None, None, None, None, None, None, Some(Ordering.Desc(Alone(u.sortField)))];
      PresentOne(op, 6);
      OrderPicks(u);
      UserQueryExtracted(u, Ordering.OrderByName, ParseString, Ordering.Decode, op);
    }
  }

  /**
    The integration test's query, with its values free: the inner filters read `name`,
    `age` and `active`, and the directives sit beside them, each read independently of
    where it appears in the query.
  */
  lemma UserQueryParsed(u: UserQuery)
    requires ValidUserQuery(u)
    ensures FromStr(RenderQuery(UserQueryTerms(u)), UserFilterId, UserFilterFromStr) == Ok(FromQueryFilter(
      UserFilter(
        StringFilters.StringFilters([StringFilters.StartsWith(u.name)], Some(Alone("name"))),
        NumberFilters.NumberFilters([NumberFilters.Gte(u.low as int), NumberFilters.Lt(u.high as int)], Some(Alone("age"))),
        EqualFilters.EqualFilter(Some(u.active), Some(Alone("active")))),
      Some(Ordering.Desc(Alone(u.sortField))),
      Some(Limits.Limit(u.limit)),
      Some(Skips.Skip(u.skip))))
  {
    UserQueryName(u);
    UserQueryAge(u);
    UserQueryActive(u);
    UserQueryLimit(u);
    UserQuerySkip(u);
    UserQueryOrder(u);
  }

  /**
    The shape of the SQL builder test's query, `name[sw]=Ali&age[gte]=18&active=true&limit=10&skip=5&order_by[desc]=age`:
    the integration test's query without its upper age bound, with its six values left free.
  */
  datatype SqlxQuery = SqlxQuery(name: string, low: nat, active: bool, limit: u64, skip: u64, sortField: string)

  predicate ValidSqlxQuery(s: SqlxQuery) {
    '&' !in s.name && s.low <= I32_MAX && '&' !in s.sortField
  }

  /** The six segments of the query, as terms. */
  function SqlxQueryTerms(s: SqlxQuery): seq<Term> {
    [ Term("name", Some("sw"), s.name),
      Term("age", Some("gte"), Decimal(s.low)),
      Term("active", None, BoolText(s.active)),
      Term("limit", None, Decimal(s.limit as nat)),
      Term("skip", None, Decimal(s.skip as nat)),
      Term("order_by", Some("desc"), s.sortField) ]
  }

  lemma SqlxQueryWellFormed(s: SqlxQuery)
    requires ValidSqlxQuery(s)
    ensures forall i :: 0 <= i < |SqlxQueryTerms(s)| ==> WellFormedTerm(SqlxQueryTerms(s)[i])
  {
    DecimalWithoutAmpersand(s.low);
    DecimalWithoutAmpersand(s.limit as nat);
    DecimalWithoutAmpersand(s.skip as nat);
  }

  /** The query read for any field, given what each of its six terms contributes to it. */
  lemma SqlxQueryExtracted<V, T>(
    s: SqlxQuery, searchId: string,
    parse: string -> Option<V>, decode: (string, V) -> Result<T, FilterParseError>, picks: seq<Option<T>>
  )
    requires ValidSqlxQuery(s) && |picks| == 6
    requires forall i :: 0 <= i < 6 ==> TermContribution(searchId, SqlxQueryTerms(s)[i], parse, decode) == Ok(picks[i])
    ensures Extracted(searchId, RenderQuery(SqlxQueryTerms(s)), parse, decode) == Ok(Present(picks))
  {
    SqlxQueryWellFormed(s);
    ExtractedPicks(searchId, SqlxQueryTerms(s), parse, decode, picks);
  }

  /** Read for `name`, the query holds one `StartsWith` with the given prefix (`name[sw]=Ali`). */
  lemma SqlxQueryName(s: SqlxQuery)
    requires ValidSqlxQuery(s)
    ensures StringFilters.FromStr("name", RenderQuery(SqlxQueryTerms(s)), ParseString) ==
      Ok(StringFilters.StringFilters([StringFilters.StartsWith(s.name)], Some(Alone("name"))))
  {
    assert Extracted("name", RenderQuery(SqlxQueryTerms(s)), ParseString, StringFilters.Decode) == Ok([StringFilters.StartsWith(s.name)]) by {
      var picks := [Some(StringFilters.StartsWith(s.name)), None, None, None, None, None];
      var ts := SqlxQueryTerms(s);
      forall i | 0 <= i < 6 ensures TermContribution("name", ts[i], ParseString, StringFilters.Decode) == Ok(picks[i]) {
        if i == 0 {} else if i == 1 {} else if i == 2 {} else if i == 3 {} else if i == 4 {} else {}
      }
      PresentOne(picks, 0);
      SqlxQueryExtracted(s, "name", ParseString, StringFilters.Decode, picks);
    }
  }

  /** Read for `age`, the query holds the single lower bound `Gte(low)` (`age[gte]=18`). */
  lemma SqlxQueryAge(s: SqlxQuery)
    requires ValidSqlxQuery(s)
    ensures NumberFilters.FromStr("age", RenderQuery(SqlxQueryTerms(s)), ParseI32) ==
      Ok(NumberFilters.NumberFilters([NumberFilters.Gte(s.low as int)], Some(Alone("age"))))
  {
    assert Extracted("age", RenderQuery(SqlxQueryTerms(s)), ParseI32, NumberFilters.Decode) == Ok([NumberFilters.Gte(s.low as int)]) by {
      var picks := [None, Some(NumberFilters.Gte(s.low as int)), None, None, None, None];
      var ts := SqlxQueryTerms(s);
      ParseI32OfDecimal(s.low);
      forall i | 0 <= i < 6 ensures TermContribution("age", ts[i], ParseI32, NumberFilters.Decode) == Ok(picks[i]) {
        if i == 0 {} else if i == 1 {} else if i == 2 {} else if i == 3 {} else if i == 4 {} else {}
      }
      PresentOne(picks, 1);
      SqlxQueryExtracted(s, "age", ParseI32, NumberFilters.Decode, picks);
    }
  }

  /** Read for `active`, the query holds the given flag (`active=true`). */
  lemma SqlxQueryActive(s: SqlxQuery)
    requires ValidSqlxQuery(s)
    ensures EqualFilters.FromStr("active", RenderQuery(SqlxQueryTerms(s)), ParseBool) ==
      Ok(EqualFilters.EqualFilter(Some(s.active), Some(Alone("active"))))
  {
    var f := EqualFilters.EqualFilter(Some(s.active), Some(EqualFilters.Placeholder));
    assert Extracted("active", RenderQuery(SqlxQueryTerms(s)), ParseBool, EqualFilters.Decode) == Ok([f]) by {
      var picks := [None, None, Some(f), None, None, None];
      var ts := SqlxQueryTerms(s);
      assert ParseBool(BoolText(s.active)) == Some(s.active);
      forall i | 0 <= i < 6 ensures TermContribution("active", ts[i], ParseBool, EqualFilters.Decode) == Ok(picks[i]) {
        if i == 0 {} else if i == 1 {} else if i == 2 {} else if i == 3 {} else if i == 4 {} else {}
      }
      PresentOne(picks, 2);
      SqlxQueryExtracted(s, "active", ParseBool, EqualFilters.Decode, picks);
    }
  }

  /** The query's page size (`limit=10`). */
  lemma SqlxQueryLimit(s: SqlxQuery)
    requires ValidSqlxQuery(s)
    ensures Limits.FromStr(RenderQuery(SqlxQueryTerms(s))) == Ok(Some(Limits.Limit(s.limit)))
  {
    assert Extracted(Limits.LimitName, RenderQuery(SqlxQueryTerms(s)), ParseU64, Limits.Decode) == Ok([Limits.Limit(s.limit)]) by {
      var picks := [None, None, None, Some(Limits.Limit(s.limit)), None, None];
      var ts := SqlxQueryTerms(s);
      ParseU64OfDecimal(s.limit);
      forall i | 0 <= i < 6 ensures TermContribution(Limits.LimitName, ts[i], ParseU64, Limits.Decode) == Ok(picks[i]) {
        if i == 0 {} else if i == 1 {} else if i == 2 {} else if i == 3 {} else if i == 4 {} else {}
      }
      PresentOne(picks, 3);
      SqlxQueryExtracted(s, Limits.LimitName, ParseU64, Limits.Decode, picks);
    }
  }

  /** The query's offset (`skip=5`). */
  lemma SqlxQuerySkip(s: SqlxQuery)
    requires ValidSqlxQuery(s)
    ensures Skips.FromStr(RenderQuery(SqlxQueryTerms(s))) == Ok(Some(Skips.Skip(s.skip)))
  {
    assert Extracted(Skips.SkipName, RenderQuery(SqlxQueryTerms(s)), ParseU64, Skips.Decode) == Ok([Skips.Skip(s.skip)]) by {
      var picks := [None, None, None, None, Some(Skips.Skip(s.skip)), None];
      var ts := SqlxQueryTerms(s);
      ParseU64OfDecimal(s.skip);
      forall i | 0 <= i < 6 ensures TermContribution(Skips.SkipName, ts[i], ParseU64, Skips.Decode) == Ok(picks[i]) {
        if i == 0 {} else if i == 1 {} else if i == 2 {} else if i == 3 {} else if i == 4 {} else {}
      }
      PresentOne(picks, 4);
      SqlxQueryExtracted(s, Skips.SkipName, ParseU64, Skips.Decode, picks);
    }
  }

  /** The query's sorting: descending on the given field (`order_by[desc]=age`). */
  lemma SqlxQueryOrder(s: SqlxQuery)
    requires ValidSqlxQuery(s)
    ensures Ordering.FromStr(RenderQuery(SqlxQueryTerms(s))) == Ok(Some(Ordering.Desc(Alone(s.sortField))))
  {
    assert Extracted(Ordering.OrderByName, RenderQuery(SqlxQueryTerms(s)), ParseString, Ordering.Decode) == Ok([Ordering.Desc(Alone(s.sortField))]) by {
      var picks := [None, None, None, None, None, Some(Ordering.Desc(Alone(s.sortField)))];
      var ts := SqlxQueryTerms(s);
      forall i | 0 <= i < 6 ensures TermContribution(Ordering.OrderByName, ts[i], ParseString, Ordering.Decode) == Ok(picks[i]) {
        if i == 0 {} else if i == 1 {} else if i == 2 {} else if i == 3 {} else if i == 4 {} else {}
      }
      PresentOne(picks, 5);
      SqlxQueryExtracted(s, Ordering.OrderByName, ParseString, Ordering.Decode, picks);
    }
  }

  /** The SQL builder test's query, with its values free: one condition per inner field, and all three directives. */
  lemma SqlxQueryParsed(s: SqlxQuery)
    requires ValidSqlxQuery(s)
    ensures FromStr(RenderQuery(SqlxQueryTerms(s)), UserFilterId, UserFilterFromStr) == Ok(FromQueryFilter(
      UserFilter(
        StringFilters.StringFilters([StringFilters.StartsWith(s.name)], Some(Alone("name"))),
        NumberFilters.NumberFilters([NumberFilters.Gte(s.low as int)], Some(Alone("age"))),
        EqualFilters.EqualFilter(Some(s.active), Some(Alone("active")))),
      Some(Ordering.Desc(Alone(s.sortField))),
      Some(Limits.Limit(s.limit)),
      Some(Skips.Skip(s.skip))))
  {
    SqlxQueryName(s);
    SqlxQueryAge(s);
    SqlxQueryActive(s);
    SqlxQueryLimit(s);
    SqlxQuerySkip(s);
    SqlxQueryOrder(s);
  }

  // ---------------------------------------------------------------------------
  // The inner filter of the module's own test: one equality filter on `age`

  datatype MockQuery = MockQuery(age: EqualFilters.EqualFilter<int>)

  /** `MockQuery` declares no table prefix. */
  const MockQueryId: Option<string> := None

  /** `MockQuery::from_str`: the `age` equality filter, read as an `i32`. */
  function MockQueryFromStr(query: string): (r: Result<MockQuery, FilterParseError>)
    ensures r.Ok? <==> EqualFilters.FromStr("age", query, ParseI32).Ok?
    ensures r.Ok? ==> r.value.age == EqualFilters.FromStr("age", query, ParseI32).value
  {
    match EqualFilters.FromStr("age", query, ParseI32)
    case Err(e) => Err(e)
    case Ok(age) => Ok(MockQuery(age))
  }

  /** The three segments of the test's query `age=20&limit=10&order_by[asc]=age`, with the values free. */
  function MockQueryTerms(age: nat, limit: u64, field: string): seq<Term> {
    [ Term("age", None, Decimal(age)),
      Term("limit", None, Decimal(limit as nat)),
      Term("order_by", Some("asc"), field) ]
  }

  predicate ValidMockQuery(age: nat, field: string) {
    age <= I32_MAX && '&' !in field
  }

  lemma MockQueryWellFormed(age: nat, limit: u64, field: string)
    requires ValidMockQuery(age, field)
    ensures forall i :: 0 <= i < 3 ==> WellFormedTerm(MockQueryTerms(age, limit, field)[i])
  {
    DecimalWithoutAmpersand(age);
    DecimalWithoutAmpersand(limit as nat);
  }

  /** Read for `age`, the query holds the value `N` (`age=20`). */
  lemma MockQueryAge(age: nat, limit: u64, field: string)
    requires ValidMockQuery(age, field)
    ensures EqualFilters.FromStr("age", RenderQuery(MockQueryTerms(age, limit, field)), ParseI32) ==
      Ok(EqualFilters.EqualFilter(Some(age as int), Some(Alone("age"))))
  {
    var ts := MockQueryTerms(age, limit, field);
    var f := EqualFilters.EqualFilter(Some(age as int), Some(EqualFilters.Placeholder));
    var picks := [Some(f), None, None];
    ParseI32OfDecimal(age);
    forall i | 0 <= i < 3 ensures TermContribution("age", ts[i], ParseI32, EqualFilters.Decode) == Ok(picks[i]) {
      if i == 0 {} else if i == 1 {} else {}
    }
    assert Present(picks) == [f] by { PresentOne(picks, 0); }
    MockQueryWellFormed(age, limit, field);
    ExtractedPicks("age", ts, ParseI32, EqualFilters.Decode, picks);
  }

  /** The query's page size (`limit=10`). */
  lemma MockQueryLimit(age: nat, limit: u64, field: string)
    requires ValidMockQuery(age, field)
    ensures Limits.FromStr(RenderQuery(MockQueryTerms(age, limit, field))) == Ok(Some(Limits.Limit(limit)))
  {
    var ts := MockQueryTerms(age, limit, field);
    var picks := [None, Some(Limits.Limit(limit)), None];
    ParseU64OfDecimal(limit);
    forall i | 0 <= i < 3 ensures TermContribution(Limits.LimitName, ts[i], ParseU64, Limits.Decode) == Ok(picks[i]) {
      if i == 0 {} else if i == 1 {} else {}
    }
    assert Present(picks) == [Limits.Limit(limit)] by { PresentOne(picks, 1); }
    MockQueryWellFormed(age, limit, field);
    ExtractedPicks(Limits.LimitName, ts, ParseU64, Limits.Decode, picks);
  }

  /** The query has no offset. */
  lemma MockQuerySkip(age: nat, limit: u64, field: string)
    requires ValidMockQuery(age, field)
    ensures Skips.FromStr(RenderQuery(MockQueryTerms(age, limit, field))) == Ok(None)
  {
    var ts := MockQueryTerms(age, limit, field);
    var picks: seq<Option<Skips.Skip>> := [None, None, None];
    forall i | 0 <= i < 3 ensures TermContribution(Skips.SkipName, ts[i], ParseU64, Skips.Decode) == Ok(picks[i]) {
      if i == 0 {} else if i == 1 {} else {}
    }
    assert Present(picks) == [] by { PresentNone(picks); }
    MockQueryWellFormed(age, limit, field);
    ExtractedPicks(Skips.SkipName, ts, ParseU64, Skips.Decode, picks);
  }

  /** The query's sorting: ascending on the given field (`order_by[asc]=age`). */
  lemma MockQueryOrder(age: nat, limit: u64, field: string)
    requires ValidMockQuery(age, field)
    ensures Ordering.FromStr(RenderQuery(MockQueryTerms(age, limit, field))) == Ok(Some(Ordering.Asc(Alone(field))))
  {
    var ts := MockQueryTerms(age, limit, field);
    var picks := [None, None, Some(Ordering.Asc(Alone(field)))];
    forall i | 0 <= i < 3 ensures TermContribution(Ordering.OrderByName, ts[i], ParseString, Ordering.Decode) == Ok(picks[i]) {
      if i == 0 {} else if i == 1 {} else {}
    }
    assert Present(picks) == [Ordering.Asc(Alone(field))] by { PresentOne(picks, 2); }
    MockQueryWellFormed(age, limit, field);
    ExtractedPicks(Ordering.OrderByName, ts, ParseString, Ordering.Decode, picks);
  }

  /**
    The module's own test, with its values free: `age=N&limit=L&order_by[asc]=F` gives the
    equality value `N` on `age`, the page size `L`, ascending order on `F`, and no offset.
  */
  lemma MockQueryParsed(age: nat, limit: u64, field: string)
    requires ValidMockQuery(age, field)
    ensures FromStr(RenderQuery(MockQueryTerms(age, limit, field)), MockQueryId, MockQueryFromStr) == Ok(FromQueryFilter(
      MockQuery(EqualFilters.EqualFilter(Some(age as int), Some(Alone("age")))),
      Some(Ordering.Asc(Alone(field))),
      Some(Limits.Limit(limit)),
      None))
  {
    MockQueryAge(age, limit, field);
    MockQueryLimit(age, limit, field);
    MockQuerySkip(age, limit, field);
    MockQueryOrder(age, limit, field);
  }
}
