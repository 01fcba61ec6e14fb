/**
  SQL emission (src/sqlx.rs): each filter appends its clauses to a query builder. The
  builder is kept abstract as the sequence of what was pushed to it, text fragments and
  bound values, so the placeholder syntax of a particular database does not enter the
  model. Every `apply` is a method that only appends, proved against a function giving
  the events it appends.
*/
module Sqlx {
  import opened Wrappers
  import opened FilterIds
  import opened Scalars
  import NumberFilters
  import StringFilters
  import EqualFilters
  import Ordering
  import Limits
  import Skips
  import QueryFilters
  import Common

  /** A value bound to a placeholder. */
  datatype SqlValue = TextValue(text: string) | IntValue(number: int) | BoolValue(flag: bool)

  /** One call on the builder: `push` of SQL text, or `push_bind` of a value. */
  datatype Event = Text(sql: string) | Bind(value: SqlValue)

  /** `sqlx::QueryBuilder`, as the record of the calls made on it. */
  class QueryBuilder {
    var events: seq<Event>

    /** `QueryBuilder::new`: the builder holds the initial SQL. */
    constructor(init: string)
      ensures events == [Text(init)]
    {
      events := [Text(init)];
    }

    /** `push`: append SQL text. */
    method Push(sql: string)
      modifies this
      ensures events == old(events) + [Text(sql)]
    {
      events := events + [Text(sql)];
    }

    /** `push_bind`: append a placeholder bound to `value`. */
    method PushBind(value: SqlValue)
      modifies this
      ensures events == old(events) + [Bind(value)]
    {
      events := events + [Bind(value)];
    }
  }

  // ---------------------------------------------------------------------------
  // Comparison clauses: ` AND `, the column, the operator text, one bound value

  /** The four events of one comparison on `column`. */
  function Clause(column: string, op: string, value: SqlValue): seq<Event> {
    [Text(" AND "), Text(column), Text(op), Bind(value)]
  }

  /** One clause per filter, in list order; `sql` gives a filter's operator text and bound value. */
  function Clauses<F>(column: string, fs: seq<F>, sql: F -> (string, SqlValue)): (r: seq<Event>)
    ensures |r| == 4 * |fs|
    decreases |fs|
  {
    if fs == [] then []
    else
      var last := fs[|fs| - 1];
      Clauses(column, fs[..|fs| - 1], sql) + Clause(column, sql(last).0, sql(last).1)
  }

  /** Filter `i` owns events `4 * i` to `4 * i + 3`: its clause and nothing else. */
  lemma {:induction false} ClausesAt<F>(column: string, fs: seq<F>, sql: F -> (string, SqlValue), i: nat)
    requires i < |fs|
    ensures Clauses(column, fs, sql)[4 * i..4 * i + 4] == Clause(column, sql(fs[i]).0, sql(fs[i]).1)
    decreases |fs|
  {
    var n := |fs| - 1;
    if i < n {
      ClausesAt(column, fs[..n], sql, i);
      var prefix := Clauses(column, fs[..n], sql);
      assert Clauses(column, fs, sql)[..4 * n] == prefix;
    }
  }

  /** The clauses of the first `i + 1` filters are those of the first `i`, then filter `i`'s. */
  lemma ClausesSnoc<F>(column: string, fs: seq<F>, sql: F -> (string, SqlValue), i: nat)
    requires i < |fs|
    ensures Clauses(column, fs[..i + 1], sql) == Clauses(column, fs[..i], sql) + Clause(column, sql(fs[i]).0, sql(fs[i]).1)
  {
    assert fs[..i + 1][..i] == fs[..i];
  }

  // ---------------------------------------------------------------------------
  // Number filters

  /** The SQL operator of each numeric comparison. */
  function NumberOperatorSql<T>(f: NumberFilters.NumberFilter<T>): string {
    match f
    case Eq(_) => " = "
    case Ne(_) => " <> "
    case Gt(_) => " > "
    case Lt(_) => " < "
    case Gte(_) => " >= "
    case Lte(_) => " <= "
  }

  /** Distinct comparisons are written with distinct operators, so the clause determines the comparison. */
  lemma NumberOperatorSqlInjective<T>(f: NumberFilters.NumberFilter<T>, g: NumberFilters.NumberFilter<T>)
    requires NumberOperatorSql(f) == NumberOperatorSql(g) && f.value == g.value
    ensures f == g
  {
  }

  /** A numeric comparison's operator and its value, bound as the database encodes `T`. */
  function NumberSql<T>(encode: T -> SqlValue): NumberFilters.NumberFilter<T> -> (string, SqlValue) {
    f => (NumberOperatorSql(f), encode(f.value))
  }

  /** What `NumberFilters::apply` appends: nothing without an identifier, else one clause per filter on `key()`. */
  function NumberFiltersSql<T>(nf: NumberFilters.NumberFilters<T>, encode: T -> SqlValue): (r: seq<Event>)
    ensures nf.id.None? ==> r == []
    ensures nf.id.Some? ==> |r| == 4 * |nf.filters|
  {
    if nf.id.None? then [] else Clauses(nf.id.value.Key(), nf.filters, NumberSql(encode))
  }

  /** The body of the loop of `NumberFilters::apply`: one comparison on `column`. */
  method ApplyNumberFilter<T>(column: string, filter: NumberFilters.NumberFilter<T>, encode: T -> SqlValue, qb: QueryBuilder)
    modifies qb
    ensures qb.events == old(qb.events) + Clause(column, NumberOperatorSql(filter), encode(filter.value))
  {
    qb.Push(" AND ");
    qb.Push(column);
    match filter {
      case Eq(v) =>
        qb.Push(" = ");
        qb.PushBind(encode(v));
      case Ne(v) =>
        qb.Push(" <> ");
        qb.PushBind(encode(v));
      case Gt(v) =>
        qb.Push(" > ");
        qb.PushBind(encode(v));
      case Lt(v) =>
        qb.Push(" < ");
        qb.PushBind(encode(v));
      case Gte(v) =>
        qb.Push(" >= ");
        qb.PushBind(encode(v));
      case Lte(v) =>
        qb.Push(" <= ");
        qb.PushBind(encode(v));
    }
  }

  /** `NumberFilters::apply`: one comparison per filter on `key()`, when there is an identifier. */
  method ApplyNumberFilters<T>(nf: NumberFilters.NumberFilters<T>, encode: T -> SqlValue, qb: QueryBuilder)
    modifies qb
    ensures qb.events == old(qb.events) + NumberFiltersSql(nf, encode)
  {
    if nf.id.Some? {
      var column := nf.id.value.Key();
      for i := 0 to |nf.filters|
        invariant qb.events == old(qb.events) + Clauses(column, nf.filters[..i], NumberSql(encode))
      {
        ApplyNumberFilter(column, nf.filters[i], encode, qb);
        ClausesSnoc(column, nf.filters, NumberSql(encode), i);
      }
      assert nf.filters[..|nf.filters|] == nf.filters;
    }
  }

  /**
    Each numeric comparison is written at its place in list order, on the column
    `key()` (the alias when there is one), with its own operator and its value.
  */
  lemma NumberFiltersSqlAt<T>(nf: NumberFilters.NumberFilters<T>, encode: T -> SqlValue, i: nat)
    requires nf.id.Some? && i < |nf.filters|
    ensures NumberFiltersSql(nf, encode)[4 * i..4 * i + 4] ==
      Clause(nf.id.value.Key(), NumberOperatorSql(nf.filters[i]), encode(nf.filters[i].value))
  {
    ClausesAt(nf.id.value.Key(), nf.filters, NumberSql(encode), i);
  }

  /** An alias replaces the field name as the column: a comparison parsed under `id` is written on `alias`. */
  lemma AliasNamesTheColumn<T>(filters: seq<NumberFilters.NumberFilter<T>>, prefix: string, id: string, alias: string, encode: T -> SqlValue, i: nat)
    requires i < |filters|
    ensures NumberFiltersSql(NumberFilters.NumberFilters(filters, Some(WithPrefixAndAlias(prefix, id, alias))), encode)[4 * i + 1] == Text(alias)
  {
    NumberFiltersSqlAt(NumberFilters.NumberFilters(filters, Some(WithPrefixAndAlias(prefix, id, alias))), encode, i);
  }

  // ---------------------------------------------------------------------------
  // String filters

  /** The SQL operator of each text comparison. */
  function StringOperatorSql<T>(f: StringFilters.StringFilter<T>): string {
    match f
    case Eq(_) => " = "
    case Ne(_) => " <> "
    case Like(_) => " LIKE "
    case NotLike(_) => " NOT LIKE "
    case StartsWith(_) => " LIKE "
    case EndsWith(_) => " LIKE "
    case Contains(_) => " LIKE "
  }

  /**
    The value bound for a text comparison: the value itself for `=` and `<>`, and for the
    pattern operators its text (`display`), as given, or with `%` after, before or around it.
  */
  function StringBind<T>(f: StringFilters.StringFilter<T>, encode: T -> SqlValue, display: T -> string): SqlValue {
    match f
    case Eq(v) => encode(v)
    case Ne(v) => encode(v)
    case Like(v) => TextValue(display(v))
    case NotLike(v) => TextValue(display(v))
    case StartsWith(v) => TextValue(display(v) + "%")
    case EndsWith(v) => TextValue("%" + display(v))
    case Contains(v) => TextValue("%" + display(v) + "%")
  }

  /** A text comparison's operator and bound value. */
  function StringSql<T>(encode: T -> SqlValue, display: T -> string): StringFilters.StringFilter<T> -> (string, SqlValue) {
    f => (StringOperatorSql(f), StringBind(f, encode, display))
  }

  /** What `StringFilters::apply` appends: nothing without an identifier, else one clause per filter on `key()`. */
  function StringFiltersSql<T>(sf: StringFilters.StringFilters<T>, encode: T -> SqlValue, display: T -> string): (r: seq<Event>)
    ensures sf.id.None? ==> r == []
    ensures sf.id.Some? ==> |r| == 4 * |sf.filters|
  {
    if sf.id.None? then [] else Clauses(sf.id.value.Key(), sf.filters, StringSql(encode, display))
  }

  /** The body of the loop of `StringFilters::apply`: one comparison on `column`. */
  method ApplyStringFilter<T>(column: string, filter: StringFilters.StringFilter<T>, encode: T -> SqlValue, display: T -> string, qb: QueryBuilder)
    modifies qb
    ensures qb.events == old(qb.events) + Clause(column, StringOperatorSql(filter), StringBind(filter, encode, display))
  {
    qb.Push(" AND ");
    qb.Push(column);
    match filter {
      case Eq(v) =>
        qb.Push(" = ");
        qb.PushBind(encode(v));
      case Ne(v) =>
        qb.Push(" <> ");
        qb.PushBind(encode(v));
      case Like(v) =>
        qb.Push(" LIKE ");
        qb.PushBind(TextValue(display(v)));
      case NotLike(v) =>
        qb.Push(" NOT LIKE ");
        qb.PushBind(TextValue(display(v)));
      case StartsWith(v) =>
        qb.Push(" LIKE ");
        qb.PushBind(TextValue(display(v) + "%"));
      case EndsWith(v) =>
        qb.Push(" LIKE ");
        qb.PushBind(TextValue("%" + display(v)));
      case Contains(v) =>
        qb.Push(" LIKE ");
        qb.PushBind(TextValue("%" + display(v) + "%"));
    }
  }

  /** `StringFilters::apply`: one comparison per filter on `key()`, when there is an identifier. */
  method ApplyStringFilters<T>(sf: StringFilters.StringFilters<T>, encode: T -> SqlValue, display: T -> string, qb: QueryBuilder)
    modifies qb
    ensures qb.events == old(qb.events) + StringFiltersSql(sf, encode, display)
  {
    if sf.id.Some? {
      var column := sf.id.value.Key();
      for i := 0 to |sf.filters|
        invariant qb.events == old(qb.events) + Clauses(column, sf.filters[..i], StringSql(encode, display))
      {
        ApplyStringFilter(column, sf.filters[i], encode, display, qb);
        ClausesSnoc(column, sf.filters, StringSql(encode, display), i);
      }
      assert sf.filters[..|sf.filters|] == sf.filters;
    }
  }

  /** Each text comparison is written at its place in list order, on `key()`, with its operator and bound value. */
  lemma StringFiltersSqlAt<T>(sf: StringFilters.StringFilters<T>, encode: T -> SqlValue, display: T -> string, i: nat)
    requires sf.id.Some? && i < |sf.filters|
    ensures StringFiltersSql(sf, encode, display)[4 * i..4 * i + 4] ==
      Clause(sf.id.value.Key(), StringOperatorSql(sf.filters[i]), StringBind(sf.filters[i], encode, display))
  {
    ClausesAt(sf.id.value.Key(), sf.filters, StringSql(encode, display), i);
  }

  // ---------------------------------------------------------------------------
  // What the LIKE patterns match

  /**
    SQL `LIKE` on a pattern without an escape character: `%` matches any run of
    characters, `_` any one character, and every other character itself.
  */
  predicate LikeMatches(pattern: string, s: string)
    decreases |pattern| + |s|
  {
    if pattern == [] then s == []
    else if pattern[0] == '%' then LikeMatches(pattern[1..], s) || (s != [] && LikeMatches(pattern, s[1..]))
    else s != [] && (pattern[0] == '_' || pattern[0] == s[0]) && LikeMatches(pattern[1..], s[1..])
  }

  /** A pattern holding neither wildcard. */
  predicate Literal(v: string) {
    '%' !in v && '_' !in v
  }

  /** A literal head of a pattern matches exactly that text at the front of the subject. */
  lemma {:induction false} LikeLiteralHead(v: string, rest: string, s: string)
    requires Literal(v)
    ensures LikeMatches(v + rest, s) <==> |v| <= |s| && s[..|v|] == v && LikeMatches(rest, s[|v|..])
    decreases |v|
  {
    if v == [] {
      assert v + rest == rest;
    } else {
      assert v[0] in v;
      assert (v + rest)[0] == v[0] && (v + rest)[1..] == v[1..] + rest;
      if s != [] {
        assert Literal(v[1..]) by {
          assert forall c :: c in v[1..] ==> c in v;
        }
        LikeLiteralHead(v[1..], rest, s[1..]);
        if |v| <= |s| {
          assert s[1..][|v| - 1..] == s[|v|..];
          assert s[..|v|] == [s[0]] + s[1..][..|v| - 1];
          assert v == [v[0]] + v[1..];
        }
      }
    }
  }

  /** A leading `%` lets the rest of the pattern match any tail of the subject. */
  lemma {:induction false} LikeLeadingPercent(rest: string, s: string)
    ensures LikeMatches("%" + rest, s) <==> exists k :: 0 <= k <= |s| && LikeMatches(rest, s[k..])
    decreases |s|
  {
    var p := "%" + rest;
    assert p[0] == '%' && p[1..] == rest;
    if s != [] {
      LikeLeadingPercent(rest, s[1..]);
      if LikeMatches(p, s) {
        if !LikeMatches(rest, s) {
          var k :| 0 <= k <= |s[1..]| && LikeMatches(rest, s[1..][k..]);
          assert s[1..][k..] == s[k + 1..];
        } else {
          assert s[0..] == s;
        }
      } else {
        forall k | 0 <= k <= |s| ensures !LikeMatches(rest, s[k..]) {
          if k > 0 {
            assert s[1..][k - 1..] == s[k..];
          }
        }
      }
    } else {
      if LikeMatches(rest, s) {
        assert s[0..] == s;
      }
    }
  }

  /** A lone `%` matches everything. */
  lemma {:induction false} LikePercentAlone(s: string)
    ensures LikeMatches("%", s)
    decreases |s|
  {
    if s != [] {
      LikePercentAlone(s[1..]);
    }
  }

  /** A literal pattern matches only itself: `Like` and `NotLike` on a plain value test equality. */
  lemma LikeLiteral(v: string, s: string)
    requires Literal(v)
    ensures LikeMatches(v, s) <==> s == v
  {
    LikeLiteralHead(v, "", s);
    assert v + "" == v;
  }

  /** `v%` matches exactly the texts that start with `v`. */
  lemma LikeStartsWith(v: string, s: string)
    requires Literal(v)
    ensures LikeMatches(v + "%", s) <==> |v| <= |s| && s[..|v|] == v
  {
    LikeLiteralHead(v, "%", s);
    if |v| <= |s| {
      LikePercentAlone(s[|v|..]);
    }
  }

  /** `%v` matches exactly the texts that end with `v`. */
  lemma LikeEndsWith(v: string, s: string)
    requires Literal(v)
    ensures LikeMatches("%" + v, s) <==> |v| <= |s| && s[|s| - |v|..] == v
  {
    LikeLeadingPercent(v, s);
    forall k | 0 <= k <= |s| ensures LikeMatches(v, s[k..]) <==> s[k..] == v {
      LikeLiteral(v, s[k..]);
    }
    if |v| <= |s| && s[|s| - |v|..] == v {
      assert LikeMatches(v, s[|s| - |v|..]);
    }
  }

  /** `v` occurs in `s` at position `k`. */
  predicate OccursAt(v: string, s: string, k: int) {
    0 <= k <= |s| - |v| && s[k..k + |v|] == v
  }

  /** `%v%` matches exactly the texts that contain `v`. */
  lemma LikeContains(v: string, s: string)
    requires Literal(v)
    ensures LikeMatches("%" + v + "%", s) <==> exists k :: OccursAt(v, s, k)
  {
    assert "%" + v + "%" == "%" + (v + "%");
    LikeLeadingPercent(v + "%", s);
    if LikeMatches("%" + v + "%", s) {
      var k :| 0 <= k <= |s| && LikeMatches(v + "%", s[k..]);
      LikeStartsWith(v, s[k..]);
      assert s[k..][..|v|] == s[k..k + |v|];
      assert OccursAt(v, s, k);
    }
    if exists k :: OccursAt(v, s, k) {
      var k :| OccursAt(v, s, k);
      LikeStartsWith(v, s[k..]);
      assert s[k..][..|v|] == s[k..k + |v|];
      assert LikeMatches(v + "%", s[k..]);
    }
  }

  /** The pattern bound for `Like(v)` or `NotLike(v)`, when `v` has no wildcard, matches `v` alone. */
  lemma LikeBindMatches(v: string, s: string, encode: string -> SqlValue)
    requires Literal(v)
    ensures LikeMatches(StringBind(StringFilters.Like(v), encode, Identity).text, s) <==> s == v
    ensures LikeMatches(StringBind(StringFilters.NotLike(v), encode, Identity).text, s) <==> s == v
  {
    LikeLiteral(v, s);
  }

  /** The pattern bound for `StartsWith(v)` matches exactly the texts that start with `v`. */
  lemma StartsWithBindMatches(v: string, s: string, encode: string -> SqlValue)
    requires Literal(v)
    ensures LikeMatches(StringBind(StringFilters.StartsWith(v), encode, Identity).text, s) <==> |v| <= |s| && s[..|v|] == v
  {
    assert StringBind(StringFilters.StartsWith(v), encode, Identity).text == v + "%";
    LikeStartsWith(v, s);
  }

  /** The pattern bound for `EndsWith(v)` matches exactly the texts that end with `v`. */
  lemma EndsWithBindMatches(v: string, s: string, encode: string -> SqlValue)
    requires Literal(v)
    ensures LikeMatches(StringBind(StringFilters.EndsWith(v), encode, Identity).text, s) <==> |v| <= |s| && s[|s| - |v|..] == v
  {
    assert StringBind(StringFilters.EndsWith(v), encode, Identity).text == "%" + v;
    LikeEndsWith(v, s);
  }

  /** The pattern bound for `Contains(v)` matches exactly the texts that contain `v`. */
  lemma ContainsBindMatches(v: string, s: string, encode: string -> SqlValue)
    requires Literal(v)
    ensures LikeMatches(StringBind(StringFilters.Contains(v), encode, Identity).text, s) <==> exists k :: OccursAt(v, s, k)
  {
    assert StringBind(StringFilters.Contains(v), encode, Identity).text == "%" + v + "%";
    LikeContains(v, s);
  }

  // ---------------------------------------------------------------------------
  // Equality filters

  /** What `EqualFilter::apply` appends: one `=` clause on `key()` when there is both a value and an identifier. */
  function EqualFilterSql<T>(ef: EqualFilters.EqualFilter<T>, encode: T -> SqlValue): (r: seq<Event>)
    ensures ef.value.None? || ef.id.None? <==> r == []
    ensures r != [] ==> r == Clause(ef.id.value.Key(), " = ", encode(ef.value.value))
  {
    if ef.value.Some? && ef.id.Some? then Clause(ef.id.value.Key(), " = ", encode(ef.value.value)) else []
  }

  /** `EqualFilter::apply`. */
  method ApplyEqualFilter<T>(ef: EqualFilters.EqualFilter<T>, encode: T -> SqlValue, qb: QueryBuilder)
    modifies qb
    ensures qb.events == old(qb.events) + EqualFilterSql(ef, encode)
  {
    if ef.value.Some? {
      if ef.id.Some? {
        qb.Push(" AND ");
        qb.Push(ef.id.value.Key());
        qb.Push(" = ");
        qb.PushBind(encode(ef.value.value));
      }
    }
  }

  // ---------------------------------------------------------------------------
  // Directives

  /** What `OrderBy::apply` appends: ` ORDER BY `, the column `key()`, then the direction. */
  function OrderBySql(o: Ordering.OrderBy): (r: seq<Event>)
    ensures |r| == 3 && r[0] == Text(" ORDER BY ") && r[1] == Text(o.id.Key())
    ensures r[2] == Text(" ASC") <==> o.Asc?
    ensures r[2] == Text(" DESC") <==> o.Desc?
  {
    match o
    case Asc(id) => [Text(" ORDER BY "), Text(id.Key()), Text(" ASC")]
    case Desc(id) => [Text(" ORDER BY "), Text(id.Key()), Text(" DESC")]
  }

  /** `OrderBy::apply`. */
  method ApplyOrderBy(o: Ordering.OrderBy, qb: QueryBuilder)
    modifies qb
    ensures qb.events == old(qb.events) + OrderBySql(o)
  {
    qb.Push(" ORDER BY ");
    match o {
      case Asc(id) =>
        qb.Push(id.Key());
        qb.Push(" ASC");
      case Desc(id) =>
        qb.Push(id.Key());
        qb.Push(" DESC");
    }
  }

  /**
    Sorting is written on `key()`, which for a re-scoped directive is the bare field name:
    the table prefix given to `from_str_prefix` never reaches the SQL.
  */
  lemma OrderBySqlIgnoresPrefix(prefix: string, o: Ordering.OrderBy)
    requires o.id.Alone?
    ensures OrderBySql(Ordering.Rescope(prefix, o)) == OrderBySql(o)
  {
  }

  const I64_LIMIT: int := 0x8000_0000_0000_0000

  /** `u64 as i64`: the same 64 bits read as two's complement, so values from 2^63 up become negative. */
  function AsI64(n: u64): (r: int)
    ensures -I64_LIMIT <= r < I64_LIMIT
    ensures r % U64_LIMIT == n as int
    ensures r < 0 <==> n as int >= I64_LIMIT
  {
    if (n as int) < I64_LIMIT then n as int else n as int - U64_LIMIT
  }

  /** The cast loses nothing: distinct page sizes and offsets bind distinct integers. */
  lemma AsI64Injective(a: u64, b: u64)
    requires AsI64(a) == AsI64(b)
    ensures a == b
  {
    assert AsI64(a) % U64_LIMIT == a as int && AsI64(b) % U64_LIMIT == b as int;
  }

  /** What `Limit::apply` appends: ` LIMIT ` and the page size bound as a 64-bit signed integer. */
  function LimitSql(l: Limits.Limit): (r: seq<Event>)
    ensures |r| == 2 && r[0] == Text(" LIMIT ") && r[1].Bind? && r[1].value.IntValue?
    ensures -I64_LIMIT <= r[1].value.number < I64_LIMIT && r[1].value.number % U64_LIMIT == l.value as int
  {
    [Text(" LIMIT "), Bind(IntValue(AsI64(l.value)))]
  }

  /** `Limit::apply`. */
  method ApplyLimit(l: Limits.Limit, qb: QueryBuilder)
    modifies qb
    ensures qb.events == old(qb.events) + LimitSql(l)
  {
    qb.Push(" LIMIT ");
    qb.PushBind(IntValue(AsI64(l.value)));
  }

  /** What `Skip::apply` appends: ` OFFSET ` and the offset bound as a 64-bit signed integer. */
  function SkipSql(s: Skips.Skip): (r: seq<Event>)
    ensures |r| == 2 && r[0] == Text(" OFFSET ") && r[1].Bind? && r[1].value.IntValue?
    ensures -I64_LIMIT <= r[1].value.number < I64_LIMIT && r[1].value.number % U64_LIMIT == s.value as int
  {
    [Text(" OFFSET "), Bind(IntValue(AsI64(s.value)))]
  }

  /** `Skip::apply`. */
  method ApplySkip(s: Skips.Skip, qb: QueryBuilder)
    modifies qb
    ensures qb.events == old(qb.events) + SkipSql(s)
  {
    qb.Push(" OFFSET ");
    qb.PushBind(IntValue(AsI64(s.value)));
  }

  /** A page size or offset below 2^63 is bound as itself. */
  lemma DirectiveBindsValue(l: Limits.Limit, s: Skips.Skip)
    requires (l.value as int) < I64_LIMIT && (s.value as int) < I64_LIMIT
    ensures LimitSql(l)[1] == Bind(IntValue(l.value as int))
    ensures SkipSql(s)[1] == Bind(IntValue(s.value as int))
  {
  }

  // ---------------------------------------------------------------------------
  // The composed query, for the integration tests' inner filters

  /**
    The inner filters' `apply` in field order: `name` as text, `age` as an integer, `active`
    as a flag. Every field writes whole four-event clauses, and nothing is written exactly
    when no field has a filter it can apply.
  */
  function UserFilterSql(f: QueryFilters.UserFilter): (r: seq<Event>)
    ensures |r| % 4 == 0
    ensures r == [] <==>
      && (f.name.id.None? || f.name.filters == [])
      && (f.age.id.None? || f.age.filters == [])
      && (f.active.value.None? || f.active.id.None?)
  {
    var a := StringFiltersSql(f.name, EncodeText, Identity);
    var b := NumberFiltersSql(f.age, EncodeInt);
    var c := EqualFilterSql(f.active, EncodeBool);
    assert |a| % 4 == 0 && |b| % 4 == 0 && |c| % 4 == 0;
    assert |a + b + c| == |a| + |b| + |c|;
    a + b + c
  }

  /** `Display` on a `String`. */
  function Identity(s: string): string {
    s
  }

  /** The `Encode` of each value type the inner filters bind. */
  function EncodeText(s: string): SqlValue {
    TextValue(s)
  }

  function EncodeInt(n: int): SqlValue {
    IntValue(n)
  }

  function EncodeBool(b: bool): SqlValue {
    BoolValue(b)
  }

  /** `UserFilter::apply`. */
  method ApplyUserFilter(f: QueryFilters.UserFilter, qb: QueryBuilder)
    modifies qb
    ensures qb.events == old(qb.events) + UserFilterSql(f)
  {
    ApplyStringFilters(f.name, EncodeText, Identity, qb);
    ApplyNumberFilters(f.age, EncodeInt, qb);
    ApplyEqualFilter(f.active, EncodeBool, qb);
  }

  /**
    What `FromQueryFilter::apply` appends: the inner filters, then each directive that is
    present, sorting, page size, offset. The filter clauses come first and whole; the
    directives add three, two and two events, and the offset, when present, comes last.
  */
  function FromQueryFilterSql(q: QueryFilters.FromQueryFilter<QueryFilters.UserFilter>): (r: seq<Event>)
    ensures UserFilterSql(q.inner) <= r
    ensures |r| == |UserFilterSql(q.inner)|
      + (if q.orderBy.Some? then 3 else 0) + (if q.limit.Some? then 2 else 0) + (if q.skip.Some? then 2 else 0)
    ensures q.orderBy.Some? ==> r[|UserFilterSql(q.inner)|] == Text(" ORDER BY ")
    ensures q.skip.Some? ==> r[|r| - 2] == Text(" OFFSET ")
  {
    UserFilterSql(q.inner)
      + (if q.orderBy.Some? then OrderBySql(q.orderBy.value) else [])
      + (if q.limit.Some? then LimitSql(q.limit.value) else [])
      + (if q.skip.Some? then SkipSql(q.skip.value) else [])
  }

  /** `FromQueryFilter::apply`. */
  method ApplyFromQueryFilter(q: QueryFilters.FromQueryFilter<QueryFilters.UserFilter>, qb: QueryBuilder)
    modifies qb
    ensures qb.events == old(qb.events) + FromQueryFilterSql(q)
  {
    ghost var before := qb.events;
    ApplyUserFilter(q.inner, qb);
    ghost var inner := qb.events;
    if q.orderBy.Some? {
      ApplyOrderBy(q.orderBy.value, qb);
    }
    ghost var order := qb.events[|inner|..];
    assert qb.events == inner + order;
    if q.limit.Some? {
      ApplyLimit(q.limit.value, qb);
    }
    ghost var limit := qb.events[|inner + order|..];
    assert qb.events == inner + order + limit;
    if q.skip.Some? {
      ApplySkip(q.skip.value, qb);
    }
    ghost var skip := qb.events[|inner + order + limit|..];
    assert qb.events == inner + order + limit + skip;
    assert order == (if q.orderBy.Some? then OrderBySql(q.orderBy.value) else []);
    assert limit == (if q.limit.Some? then LimitSql(q.limit.value) else []);
    assert skip == (if q.skip.Some? then SkipSql(q.skip.value) else []);
    ghost var u := UserFilterSql(q.inner);
    assert FromQueryFilterSql(q) == u + order + limit + skip;
    AppendRegroup(before, u, order, limit, skip);
  }

  /** The filters the integration test's query parses to, with its values free. */
  function UserQueryFilter(u: QueryFilters.UserQuery): QueryFilters.FromQueryFilter<QueryFilters.UserFilter> {
    QueryFilters.FromQueryFilter(
      QueryFilters.UserFilter(
        StringFilters.StringFilters([StringFilters.StartsWith(u.name)], Some(Alone("name"))),
        NumberFilters.NumberFilters([NumberFilters.Gte(u.low as int), NumberFilters.Lt(u.high as int)], Some(Alone("age"))),
        EqualFilters.EqualFilter(Some(u.active), Some(Alone("active")))),
      Some(Ordering.Desc(Alone(u.sortField))),
      Some(Limits.Limit(u.limit)),
      Some(Skips.Skip(u.skip)))
  }

  /** A single `StartsWith(v)` on `name` is one `LIKE` comparison against `v%`. */
  lemma NameStartsWithSql(v: string)
    ensures StringFiltersSql(StringFilters.StringFilters([StringFilters.StartsWith(v)], Some(Alone("name"))), EncodeText, Identity) ==
      Clause("name", " LIKE ", TextValue(v + "%"))
  {
    var fs := [StringFilters.StartsWith(v)];
    var sql := StringSql(EncodeText, Identity);
    assert sql(fs[0]) == (StringOperatorSql(fs[0]), StringBind(fs[0], EncodeText, Identity));
    ClausesSnoc("name", fs, sql, 0);
    assert fs[..0] == [] && fs[..1] == fs;
  }

  /** `Gte(low)` then `Lt(high)` on `age` are a `>=` and a `<` comparison, in that order. */
  lemma AgeRangeSql(low: int, high: int)
    ensures NumberFiltersSql(NumberFilters.NumberFilters([NumberFilters.Gte(low), NumberFilters.Lt(high)], Some(Alone("age"))), EncodeInt) ==
      Clause("age", " >= ", IntValue(low)) + Clause("age", " < ", IntValue(high))
  {
    var fs := [NumberFilters.Gte(low), NumberFilters.Lt(high)];
    var sql := NumberSql(EncodeInt);
    assert sql(fs[0]) == (NumberOperatorSql(fs[0]), EncodeInt(fs[0].value));
    assert sql(fs[1]) == (NumberOperatorSql(fs[1]), EncodeInt(fs[1].value));
    ClausesSnoc("age", fs, sql, 0);
    assert fs[..0] == [];
    ClausesSnoc("age", fs, sql, 1);
    assert fs[..2] == fs;
  }

  /** The SQL those filters append: three `AND` comparisons, then sorting, page size and offset. */
  lemma UserQueryFilterSql(u: QueryFilters.UserQuery)
    ensures FromQueryFilterSql(UserQueryFilter(u)) ==
      Clause("name", " LIKE ", TextValue(u.name + "%"))
      + Clause("age", " >= ", IntValue(u.low)) + Clause("age", " < ", IntValue(u.high))
      + Clause("active", " = ", BoolValue(u.active))
      + [Text(" ORDER BY "), Text(u.sortField), Text(" DESC")]
      + [Text(" LIMIT "), Bind(IntValue(AsI64(u.limit)))]
      + [Text(" OFFSET "), Bind(IntValue(AsI64(u.skip)))]
  {
    var q := UserQueryFilter(u);
    assert UserFilterSql(q.inner) ==
      Clause("name", " LIKE ", TextValue(u.name + "%"))
      + Clause("age", " >= ", IntValue(u.low)) + Clause("age", " < ", IntValue(u.high))
      + Clause("active", " = ", BoolValue(u.active)) by {
      NameStartsWithSql(u.name);
      AgeRangeSql(u.low, u.high);
    }
    assert OrderBySql(q.orderBy.value) == [Text(" ORDER BY "), Text(u.sortField), Text(" DESC")];
  }

  /**
    End to end, for the integration test's query with its values free: parsing succeeds,
    and applying the result appends the `name`, `age` and `active` comparisons, then
    ` ORDER BY ` the field ` DESC`, ` LIMIT ` and ` OFFSET ` with their values bound.
  */
  lemma UserQueryToSql(u: QueryFilters.UserQuery)
    requires QueryFilters.ValidUserQuery(u)
    ensures var r := QueryFilters.FromStr(Common.RenderQuery(QueryFilters.UserQueryTerms(u)), QueryFilters.UserFilterId, QueryFilters.UserFilterFromStr);
      && r.Ok?
      && FromQueryFilterSql(r.value) ==
        Clause("name", " LIKE ", TextValue(u.name + "%"))
        + Clause("age", " >= ", IntValue(u.low)) + Clause("age", " < ", IntValue(u.high))
        + Clause("active", " = ", BoolValue(u.active))
        + [Text(" ORDER BY "), Text(u.sortField), Text(" DESC")]
        + [Text(" LIMIT "), Bind(IntValue(AsI64(u.limit)))]
        + [Text(" OFFSET "), Bind(IntValue(AsI64(u.skip)))]
  {
    QueryFilters.UserQueryParsed(u);
    UserQueryFilterSql(u);
  }

  /** The filters the SQL builder test's query parses to, with its values free. */
  function SqlxQueryFilter(s: QueryFilters.SqlxQuery): QueryFilters.FromQueryFilter<QueryFilters.UserFilter> {
    QueryFilters.FromQueryFilter(
      QueryFilters.UserFilter(
        StringFilters.StringFilters([StringFilters.StartsWith(s.name)], Some(Alone("name"))),
        NumberFilters.NumberFilters([NumberFilters.Gte(s.low as int)], Some(Alone("age"))),
        EqualFilters.EqualFilter(Some(s.active), Some(Alone("active")))),
      Some(Ordering.Desc(Alone(s.sortField))),
      Some(Limits.Limit(s.limit)),
      Some(Skips.Skip(s.skip)))
  }

  /** A single `Gte(low)` on `age` is one `>=` comparison. */
  lemma AgeLowerBoundSql(low: int)
    ensures NumberFiltersSql(NumberFilters.NumberFilters([NumberFilters.Gte(low)], Some(Alone("age"))), EncodeInt) ==
      Clause("age", " >= ", IntValue(low))
  {
    var fs := [NumberFilters.Gte(low)];
    var sql := NumberSql(EncodeInt);
    assert sql(fs[0]) == (NumberOperatorSql(fs[0]), EncodeInt(fs[0].value));
    ClausesSnoc("age", fs, sql, 0);
    assert fs[..0] == [] && fs[..1] == fs;
  }

  /** The SQL those filters append: `name LIKE`, `age >=`, `active =`, then sorting, page size and offset. */
  lemma SqlxQueryFilterSql(s: QueryFilters.SqlxQuery)
    ensures FromQueryFilterSql(SqlxQueryFilter(s)) ==
      Clause("name", " LIKE ", TextValue(s.name + "%"))
      + Clause("age", " >= ", IntValue(s.low))
      + Clause("active", " = ", BoolValue(s.active))
      + [Text(" ORDER BY "), Text(s.sortField), Text(" DESC")]
      + [Text(" LIMIT "), Bind(IntValue(AsI64(s.limit)))]
      + [Text(" OFFSET "), Bind(IntValue(AsI64(s.skip)))]
  {
    var q := SqlxQueryFilter(s);
    assert UserFilterSql(q.inner) ==
      Clause("name", " LIKE ", TextValue(s.name + "%"))
      + Clause("age", " >= ", IntValue(s.low))
      + Clause("active", " = ", BoolValue(s.active)) by {
      NameStartsWithSql(s.name);
      AgeLowerBoundSql(s.low);
    }
    assert OrderBySql(q.orderBy.value) == [Text(" ORDER BY "), Text(s.sortField), Text(" DESC")];
  }

  /**
    End to end, for the SQL builder test's query with its values free: parsing succeeds,
    and applying the result appends ` AND name LIKE ?`, ` AND age >= ?`, ` AND active = ?`,
    then ` ORDER BY ` the field ` DESC`, ` LIMIT ?` and ` OFFSET ?`, with the values bound in that order.
  */
  lemma SqlxQueryToSql(s: QueryFilters.SqlxQuery)
    requires QueryFilters.ValidSqlxQuery(s)
    ensures var r := QueryFilters.FromStr(Common.RenderQuery(QueryFilters.SqlxQueryTerms(s)), QueryFilters.UserFilterId, QueryFilters.UserFilterFromStr);
      && r.Ok?
      && FromQueryFilterSql(r.value) ==
        Clause("name", " LIKE ", TextValue(s.name + "%"))
        + Clause("age", " >= ", IntValue(s.low))
        + Clause("active", " = ", BoolValue(s.active))
        + [Text(" ORDER BY "), Text(s.sortField), Text(" DESC")]
        + [Text(" LIMIT "), Bind(IntValue(AsI64(s.limit)))]
        + [Text(" OFFSET "), Bind(IntValue(AsI64(s.skip)))]
  {
    QueryFilters.SqlxQueryParsed(s);
    SqlxQueryFilterSql(s);
  }

  /** Appending the four parts at once or one after another gives the same events. */
  lemma AppendRegroup<X>(a: seq<X>, b: seq<X>, c: seq<X>, d: seq<X>, e: seq<X>)
    ensures a + (b + c + d + e) == a + b + c + d + e
  {
    assert b + c + d + e == b + (c + (d + e));
    assert a + b + c + d + e == a + (b + (c + (d + e)));
  }
}
