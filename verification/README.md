# filtrum query filters in Dafny

This project models the core of filtrum, a Rust library that turns an HTTP query string such as
`name[sw]=Ali&age[gte]=18&age[lt]=30&active=true&limit=10&skip=5&order_by[desc]=age` into typed
filter values. It also models how those values are appended to an SQL query builder.

The model has one module per source file:

- `QueryRegex` (regex.dfy) is the key matcher `(\w+)(\[([a-z]+)])?(\[(\d+)])?`. It is a hand-written
  function `Match` with a declarative specification: the first maximal run of word characters,
  then an optional bracketed lower-case operator, then an optional bracketed index.
  `MatchCharacterisation` proves that the function returns exactly the unique capture the
  specification allows.
- `Common` (common.dfy) is the generic extractor `from_str<V, T>`. It is an imperative `method FromStr` with a
  loop over the `&`-separated segments, proved equal to the pure function `Extracted`. The value
  parser and the operator decoder are parameters. Lemmas cover the empty query, order
  preservation, segments for other fields, the default `eq` operator, structural errors on every
  segment, and the value check running before the operator decode.
- `FilterIds` (filter_id.dfy) is `FilterId` with `id`, `prefix` and `key`, plus `From<String>`.
- `NumberFilters`, `StringFilters` and `EqualFilters` are the three operator families. Each has
  its decode table, `from_str` and `from_id_value`. The number and string families also have the
  `visit_str` dual format.
- `Ordering`, `Limits` and `Skips` are the reserved directives `order_by`, `limit` and `skip`.
  Each keeps the first matching segment. `Ordering` also models `from_str_prefix`.
- `QueryFilters` (query_filter.dfy) is `FromQueryFilter::from_str`, `empty` and `from_inner`. It is
  instantiated with the test suite's hand-written `UserFilter`. For every query of the shape of the
  integration test, the lemmas prove the parsed value field by field.
- `Sqlx` (sqlx.dfy) is the `apply` implementations. `QueryBuilder` is a class whose only field is an
  append-only sequence of `Text` and `Bind` events. Each `apply` is a method proved against a
  function that says which events it appends. The `LIKE` patterns the string filters bind are
  related to a definition of SQL `LIKE` matching.
- `Scalars` holds the Rust `FromStr` instances the tests use: `u64`, `i32`, `bool` and `String`.
  `Errors` holds the three-case `FilterParseError`, and `Wrappers` holds `Option`/`Result`.

Behaviour the model keeps as the code has it:

- `EqualFilter::from_id_value` keeps the FIRST value for its field (`.first()` at
  src/equal_filter.rs:40): see `EqualFilters.FromStrKeepsFirst`. A malformed later segment still fails the whole parse.
- Operator codes with an underscore (`not_like`, `starts_with`, `ends_with`) are in the string
  decode table, but the key pattern only admits `[a-z]+` inside the brackets. So
  `name[starts_with]=x` reads as `name=x`, which is the default `eq`. The short codes
  `nl`/`sw`/`ew` are the only way to reach those operators from a query. This is listed under
  "## Findings"; the rest of the model keeps the pattern as the code writes it.
- `order_by` with a table prefix is re-scoped with `WithPrefix`. The emitted column is `key()`,
  which is the bare field name, so the prefix never reaches the SQL (`Sqlx.OrderBySqlIgnoresPrefix`).
- `limit` and `skip` are `u64` values bound as `self.0 as i64`. Values of 2^63 and above wrap to
  negative numbers. `Sqlx.AsI64` models the cast exactly.
- String values are bound into `LIKE` patterns without escaping `%` or `_`. The lemmas about
  pattern meaning therefore require the value to contain neither (`Sqlx.Literal`).
- No URL decoding is done, so `%20` and `+` stay literal characters.

## Model

| member | source | states |
|---|---|---|
| QueryRegex.MatchSpec | src/regex.rs:8 | The matcher fails exactly when the key has no word character; otherwise its result is a capture of the pattern at the first word character |
| QueryRegex.Match | src/regex.rs:8 | No match exactly when the key has no word character; a match's name is a run of word characters, its operator a non-empty lower-case word and its index non-empty digits |
| QueryRegex.CapturedUnique | src/regex.rs:8 | The pattern admits at most one capture at the leftmost match position |
| QueryRegex.MatchCharacterisation | src/regex.rs:8 | `Match(key) == Some(c)` if and only if `c` is the pattern's capture of `key`; `None` if and only if there is no word character |
| QueryRegex.GroupSpec | src/regex.rs:8 | An optional bracketed group is taken exactly when a non-empty bracketed run of allowed characters follows |
| QueryRegex.MatchNameWithOperator | src/regex.rs:19-22 | `age[eq]` gives name `age` and operator `eq`, with no index |
| QueryRegex.MatchBareName | src/regex.rs:24-27 | A bare field name gives that name and no operator |
| QueryRegex.MatchNameWithOperatorAndIndex | src/regex.rs:29-34 | `age[eq][10]` gives name, operator and index |
| QueryRegex.MatchNameWithIndexOnly | src/regex.rs:8 | `age[10]` gives no operator and index `10` |
| QueryRegex.MatchUnclosedOperator | src/regex.rs:8 | A bracket that is not a non-empty run of lower-case letters closed by `]` (`age[EQ]`, `age[eq`, `age[`, `age[]`) gives no operator and no index |
| QueryRegex.MatchNameThenOther | src/regex.rs:8 | Text after the name that is neither a word character nor `[` is ignored (`x.y` gives `x`) |
| QueryRegex.MatchSkipsLeadingNonWord | src/regex.rs:8 | Leading non-word characters are skipped; the match is unanchored |
| QueryRegex.MatchWithoutWordChar | src/regex.rs:8 | A key without a word character (for example the empty key) does not match |
| QueryRegex.MatchIntended | src/regex.rs:8 | The matcher with the operator class `[a-z_]+` fails exactly on keys without a word character and captures a word-character name |
| QueryRegex.MatchIntendedOperator | src/regex.rs:8 | With that class, `name[code]` captures `code` when it is a non-empty run of lower-case letters and `_` |
| QueryRegex.MatchIntendedAgrees | src/regex.rs:8 | Widening the class changes nothing for a key whose operator the written pattern already captures |
| Common.Split | src/common.rs:21 | `split('&')` yields at least one part, no part contains the separator, and joining the parts gives back the input |
| Common.SplitJoin | src/common.rs:21 | Splitting the join of separator-free parts gives back the parts |
| Common.SplitOnce | src/common.rs:22-24 | `split_once('=')` is absent exactly when there is no `=`; otherwise it splits at the first `=` and the parts rebuild the input |
| Common.SplitOnceAt | src/common.rs:22-24 | Only the first `=` splits a segment, so the value may contain `=` |
| Common.Locate | src/common.rs:22-36 | A segment is a structural error exactly when it has no `=` or its key has no word character; a segment kept for the field is one whose matched name is the field, with a valid operator code and the text after the first `=` as its value |
| Common.FromStr | src/common.rs:9-45 | The extraction loop returns exactly `Extracted`, the left-to-right scan of the segments stopping at the first error |
| Common.ExtractedEmptyQuery | src/common.rs:14-16 | The empty query gives the empty list, not an error |
| Common.Extracted | src/common.rs:14-44 | The empty query gives the empty list; a successful extraction has at most one value per segment |
| Common.Scan | src/common.rs:21-42 | A successful scan has at most one value per part |
| Common.ScanOk | src/common.rs:21-42 | The scan succeeds exactly when every segment's step succeeds |
| Common.ScanFirstError | src/common.rs:21-42 | The scan fails with `e` exactly when some segment fails with `e` and every earlier segment succeeds |
| Common.ExtractedErrors | src/common.rs:21-42 | Extraction succeeds if and only if every segment does, and its error is the first failing segment's error |
| Common.ExtractedDecoded | src/common.rs:21-44 | On success, the output is the parsed and decoded value of each segment naming the field, in order, and is no longer than the segment list |
| Common.MatchesFromSegments | src/common.rs:21-36 | Every matching pair comes from a segment whose key names the target field |
| Common.SegmentWithoutEquals | src/common.rs:22-24 | `Segment`: a segment without `=` is a structural error, whatever field it targets |
| Common.SegmentOutcomes | src/common.rs:22-41 | `Segment`, for every segment with `=`: no word character is a structural error, another field is skipped, a bad value is a value error, and otherwise the decoder's result is taken |
| Common.DefaultOperatorIsEq | src/common.rs:32 | A key without an operator behaves as one with `[eq]` |
| Common.ExtractedSingle | src/common.rs:21-42 | One well-formed segment for the field yields exactly its decoded value |
| Common.ExtractedDefaultOperator | src/common.rs:32 | `age=10` is decoded with operator `eq` |
| Common.ExtractedBareIsEq | src/common.rs:32 | A bare `name=v` query extracts the same as `name[eq]=v` |
| Common.ExtractedTwoFilters | src/common.rs:21-42 | `age[eq]=10&age[lt]=20` yields both filters in query order |
| Common.ExtractedIgnoresOtherFields | src/common.rs:34-36 | A segment for another field contributes nothing and raises no value or operator error |
| Common.ExtractedOtherField | src/common.rs:34-36 | A query naming only another field gives the empty list |
| Common.ExtractedWithoutEquals | src/common.rs:22-24 | A segment without `=` makes the whole extraction a structural error |
| Common.ExtractedBadValue | src/common.rs:38 | A value the parser refuses gives the value error |
| Common.ExtractedDecodeFails | src/common.rs:40 | When the value parses but the decoder refuses the operator, the decoder's error is returned |
| Common.ExtractedLaterBadValue | src/common.rs:38 | A bad value on a later matching segment fails the extraction even after a good one |
| Common.ExtractedRendered | src/common.rs:21-42 | Extracting from a query rendered from well-formed terms equals scanning the terms themselves |
| Common.ExtractedOfOne | src/common.rs:21-44 | A query of one segment extracts exactly that segment's contribution |
| Common.SegmentOfTerm | src/common.rs:22-41 | A rendered well-formed term contributes what the term says: nothing for another field, else its value parsed and decoded under its code |
| Common.ExtractedPicks | src/common.rs:21-44 | On a query rendered from well-formed terms that each contribute successfully, the extraction is exactly the present contributions in order |
| Common.ExtractedFirst | src/limit.rs:17 | `from_str(..)?.first()` fails exactly when the extraction fails; it is absent exactly when no segment names the field; otherwise it is the first matching segment, decoded |
| Common.ExtractedFirstOfTwo | src/equal_filter.rs:39-41 | Of two well-formed segments for the field, the first one's value is kept |
| FilterIds.Id | src/filter_id.rs:9-15 | `id()` is the field name for every variant |
| FilterIds.Prefix | src/filter_id.rs:17-23 | `prefix()` is absent exactly for `Alone`, and otherwise is the scope |
| FilterIds.Key | src/filter_id.rs:25-31 | `key()` is the alias for `WithPrefixAndAlias` and the field name otherwise |
| FilterIds.FromString | src/filter_id.rs:34-38 | A string becomes an `Alone` identifier whose id and key are that string, with no prefix |
| FilterIds.ComponentsDetermineId | src/filter_id.rs:9-23 | Without an alias, an identifier is determined by its `id()` and `prefix()` |
| FilterIds.AliasOnlyChangesKey | src/filter_id.rs:25-31 | An alias leaves `id()` and `prefix()` alone and changes only `key()` |
| NumberFilters.Decode | src/number_filter.rs:31-45 | Decoding succeeds exactly for `eq/ne/gt/lt/gte/lte`, carries the value unchanged, and otherwise gives `UnknownFilter` |
| NumberFilters.DecodeOperatorCode | src/number_filter.rs:31-45 | Every filter decodes back from its own operator code and value |
| NumberFilters.FromIdValue | src/number_filter.rs:70-72 | On success the identifier is the caller's `search_id` |
| NumberFilters.FromStr | src/number_filter.rs:65-67 | On success the identifier is the unscoped field name |
| NumberFilters.FromIdValueSpec | src/number_filter.rs:70-72 | Errors are the extractor's; on success there is one filter per matching segment, in order, with that segment's operator and parsed value |
| NumberFilters.UnknownOperatorFails | src/number_filter.rs:40 | An operator outside the table gives `UnknownFilter` |
| NumberFilters.FromStrRange | src/number_filter.rs:142-149 | `age[gte]=L&age[lt]=H` yields exactly `[Gte(L), Lt(H)]` |
| NumberFilters.VisitStrBareValue | src/number_filter.rs:102-112 | Input without `=` is parsed whole as `Eq`, or reports the whole input as invalid |
| NumberFilters.VisitStrManyEquals | src/number_filter.rs:102-112 | Input with two or more `=` is also parsed whole as `Eq` |
| NumberFilters.VisitStrKeyValue | src/number_filter.rs:114-129 | For `key=value` the value is parsed first, then the key selects the variant or is an unknown-filter error |
| NumberFilters.VisitStrRoundTrip | src/number_filter.rs:114-129 | `code=value` for a filter's own code gives that filter back |
| NumberFilters.VisitStr | src/number_filter.rs:98-130 | Without exactly two `=`-pieces the result is `Eq` of the whole input parsed; with two, the first piece is the returned filter's code and the second its parsed value; the unknown-code error arises exactly for a two-piece input whose code is outside the table and whose value parses; an invalid-value error names text the parser refuses |
| StringFilters.Decode | src/string_filter.rs:36-53 | Decoding succeeds exactly for the long codes and their short aliases, carries the value unchanged, and otherwise gives `UnknownFilter` |
| StringFilters.AliasDecodesAsLongCode | src/string_filter.rs:41-49 | `l`, `nl`, `sw`, `ew` and `c` decode as `like`, `not_like`, `starts_with`, `ends_with` and `contains` |
| StringFilters.DecodeOperatorCode | src/string_filter.rs:36-53 | Every filter decodes back from its long code and value |
| StringFilters.FromIdValue | src/string_filter.rs:87-89 | On success the identifier is the caller's `search_id` |
| StringFilters.FromStr | src/string_filter.rs:82-84 | On success the identifier is the unscoped field name |
| StringFilters.FromIdValueSpec | src/string_filter.rs:87-89 | Errors are the extractor's; on success there is one filter per matching segment, in order, with the canonical form of its operator and its value |
| StringFilters.FromStrLikeAndNe | src/string_filter.rs:146-154 | `name[like]=a&name[ne]=b` yields `[Like(a), Ne(b)]` under the identifier `name` |
| StringFilters.UnderscoredKey | src/regex.rs:8 | A bracket holding an underscore is not an operator group |
| StringFilters.UnderscoredCodeReadsAsEq | src/common.rs:26-32 | Such a key therefore reads as the default `eq` |
| StringFilters.LongCodeWithUnderscoreReadsAsEq | src/string_filter.rs:43-47 | `name[not_like]=v`, `name[starts_with]=v` and `name[ends_with]=v` all yield `[Eq(v)]` |
| StringFilters.LongCodeIsOperatorWord | src/string_filter.rs:36-53 | Every long code is a non-empty run of lower-case letters and `_` |
| StringFilters.LongCodeIntended | src/string_filter.rs:36-53 | Under the widened class, `name[code]` captures each variant's long code, which decodes back to that variant |
| StringFilters.VisitStr | src/string_filter.rs:106-135 | Input that does not split into exactly two parts is `Eq(input)`; the only error is a two-part input with an unknown key |
| StringFilters.VisitStrWithoutEquals | src/string_filter.rs:110-115 | Input without `=` is `Eq(input)` and never fails |
| StringFilters.VisitStrKeyValue | src/string_filter.rs:117-134 | `key=value` selects the variant by long code or alias, or is an error |
| StringFilters.VisitStrRoundTrip | src/string_filter.rs:117-134 | `code=value` for a filter's own code gives that filter back |
| EqualFilters.Decode | src/equal_filter.rs:22-27 | Every operator code is accepted and the value is kept |
| EqualFilters.FromIdValue | src/equal_filter.rs:37-47 | On success the stored identifier is the caller's, not the decoder's placeholder |
| EqualFilters.FromStr | src/equal_filter.rs:33-35 | On success the identifier is the unscoped field name |
| EqualFilters.FromIdValueSpec | src/equal_filter.rs:37-47 | Errors are the extractor's; the value is absent exactly when no segment names the field, and otherwise is the first such segment's parsed value |
| EqualFilters.FromStrBareValue | src/equal_filter.rs:55-58 | `age=20` gives `Some(20)` |
| EqualFilters.FromStrKeepsFirst | src/equal_filter.rs:39-41 | Of two segments for the field, the first value is kept |
| EqualFilters.FromStrOtherField | src/equal_filter.rs:60-62 | A query naming only another field gives no value, with the identifier still set |
| EqualFilters.FromStrLaterBadValue | src/equal_filter.rs:39 | A bad value in a later segment fails the parse, because the error propagates before `.first()` |
| Ordering.Decode | src/order_by.rs:32-40 | Only `asc` and `desc` decode, to an unscoped identifier for the value; any other code is `UnknownFilter` |
| Ordering.FromStr | src/order_by.rs:32-47 | Errors are the extractor's; the directive is absent exactly when no `order_by` segment exists; otherwise it comes from the first one, whose code is `asc` or `desc` and gives the direction, with an unscoped identifier, so the `unreachable!` arms of `from_str_prefix` are never taken |
| Ordering.Rescope | src/order_by.rs:50-65 | Re-scoping keeps the direction and field and sets the prefix |
| Ordering.FromStrPrefix | src/order_by.rs:49-67 | `from_str_prefix` has the same errors and presence as `from_str`; a present directive keeps direction and `id()` and gets the prefix, as `WithPrefix` and never with an alias |
| Ordering.FromStrDirection | src/order_by.rs:74-89 | `order_by[asc]=f` gives `Asc(f)` and `order_by[desc]=f` gives `Desc(f)` |
| Ordering.FromStrWithoutDirection | src/order_by.rs:37 | `order_by=x` defaults to `eq` and so is `UnknownFilter` |
| Ordering.FromStrUnknownDirection | src/order_by.rs:37 | Any code other than `asc`/`desc` is `UnknownFilter` |
| Ordering.FromStrKeepsFirst | src/order_by.rs:44 | Of two `order_by` segments the first is kept |
| Ordering.FromStrAbsent | src/order_by.rs:44 | Without an `order_by` segment there is no directive |
| Ordering.FromStrPrefixDirection | src/order_by.rs:91-102 | Under a prefix, `order_by[asc]=name` sorts on `name` scoped to the prefix |
| Limits.Decode | src/limit.rs:9-13 | Any operator code is accepted and the value is kept |
| Limits.FromStr | src/limit.rs:16-20 | Errors are the extractor's; the limit is absent exactly when no `limit` segment exists, and otherwise is the first one's `u64` value |
| Limits.FromStrBareValue | src/limit.rs:28-31 | `limit=n` gives `Limit(n)` |
| Limits.FromStrAnyOperator | src/limit.rs:9-13 | `limit[op]=n` gives `Limit(n)` for any operator code |
| Limits.FromStrBadValue | src/limit.rs:17 | A value that is not a `u64` is the value error |
| Limits.FromStrKeepsFirst | src/limit.rs:17 | Of two `limit` segments the first is kept |
| Limits.FromStrAbsent | src/limit.rs:33-35 | Without a `limit` segment there is no limit |
| Skips.Decode | src/skip.rs:9-13 | Any operator code is accepted and the value is kept |
| Skips.FromStr | src/skip.rs:16-20 | Errors are the extractor's; the skip is absent exactly when no `skip` segment exists, and otherwise is the first one's `u64` value |
| Skips.FromStrBareValue | src/skip.rs:28-31 | `skip=n` gives `Skip(n)` |
| Skips.FromStrAnyOperator | src/skip.rs:9-13 | `skip[op]=n` gives `Skip(n)` for any operator code |
| Skips.FromStrBadValue | src/skip.rs:37-40 | A value that is not a `u64` (`skip=abc`) is the value error |
| Skips.FromStrKeepsFirst | src/skip.rs:17 | Of two `skip` segments the first is kept |
| Skips.FromStrAbsent | src/skip.rs:33-35 | Without a `skip` segment there is no skip |
| QueryFilters.FromStr | src/query_filter.rs:19-38 | The composed parse succeeds exactly when all four steps do; the error is that of the first failing step in the order order_by, limit, skip, inner |
| QueryFilters.FromStrScopesOrdering | src/query_filter.rs:20-24 | Without a filter id the ordering is the unscoped parse; with one, a present ordering carries that prefix |
| QueryFilters.Empty | src/query_filter.rs:45-47 | `empty()` is `from_inner` of the default inner value |
| QueryFilters.FromInner | src/query_filter.rs:49-54 | `from_inner(x)` has inner `x` and no order, limit or skip |
| QueryFilters.UserFilterFromStr | tests/integration_tests.rs:22-32 | The test's inner parse succeeds exactly when the `name`, `age` and `active` parses do, holds their values, fails with the first error in that order, and its identifiers are the unscoped field names |
| QueryFilters.EmptyQuery | tests/integration_tests.rs:61-72 | The empty query gives empty name and age filters, no active value, and no directives |
| QueryFilters.UserQueryName | tests/integration_tests.rs:41-42 | For a query shaped like the integration test, the name filters are `[StartsWith(name)]` |
| QueryFilters.UserQueryAge | tests/integration_tests.rs:44-46 | The age filters are `[Gte(low), Lt(high)]` |
| QueryFilters.UserQueryActive | tests/integration_tests.rs:48-49 | The active filter holds the boolean |
| QueryFilters.UserQueryLimit | tests/integration_tests.rs:52 | The limit is the query's `u64` |
| QueryFilters.UserQuerySkip | tests/integration_tests.rs:53 | The skip is the query's `u64` |
| QueryFilters.UserQueryOrder | tests/integration_tests.rs:55-58 | The ordering is `Desc` on the sort field |
| QueryFilters.UserQueryParsed | tests/integration_tests.rs:34-59 | The whole composed parse of such a query is exactly the expected `FromQueryFilter<UserFilter>` |
| QueryFilters.SqlxQueryName | tests/sqlx_tests.rs:49-50 | The name filters of such a query are `[StartsWith(name)]` |
| QueryFilters.SqlxQueryAge | tests/sqlx_tests.rs:49-50 | The age filters are the single bound `[Gte(low)]` |
| QueryFilters.SqlxQueryActive | tests/sqlx_tests.rs:49-50 | The active filter holds the boolean |
| QueryFilters.SqlxQueryLimit | tests/sqlx_tests.rs:49-50 | The limit is the query's `u64` |
| QueryFilters.SqlxQuerySkip | tests/sqlx_tests.rs:49-50 | The skip is the query's `u64` |
| QueryFilters.SqlxQueryOrder | tests/sqlx_tests.rs:49-50 | The ordering is `Desc` on the sort field |
| QueryFilters.SqlxQueryParsed | tests/sqlx_tests.rs:49-50 | The whole composed parse of such a query is exactly the `FromQueryFilter<UserFilter>` with those three filters and all three directives |
| QueryFilters.MockQueryFromStr | src/query_filter.rs:73-80 | The module test's inner parse succeeds exactly when the `age` equality parse does, and holds its value |
| QueryFilters.MockQueryAge | src/query_filter.rs:84-87 | `age=N&limit=L&order_by[asc]=F` read for `age` holds the value `N` |
| QueryFilters.MockQueryLimit | src/query_filter.rs:84-88 | The same query has the page size `L` |
| QueryFilters.MockQuerySkip | src/query_filter.rs:84-85 | The same query has no offset |
| QueryFilters.MockQueryOrder | src/query_filter.rs:84-92 | The same query sorts ascending on `F` |
| QueryFilters.MockQueryParsed | src/query_filter.rs:82-93 | The whole composed parse of `age=N&limit=L&order_by[asc]=F` is the expected value, for every `i32` value `N`, `u64` `L` and field `F` |
| Scalars.ParseBool | src/common.rs:38 | `bool` parsing accepts exactly `true` and `false` |
| Scalars.ParseString | src/common.rs:38 | `String` parsing never fails and keeps the text unchanged |
| Scalars.ParseU64 | src/common.rs:38 | An accepted text is an optional `+` and then a non-empty run of digits whose value is the result |
| Scalars.ParseU64Accepts | src/common.rs:38 | An accepted text is the decimal rendering of the result, after an optional `+` and leading zeros |
| Scalars.ParseI32 | src/common.rs:38 | An accepted text is an optional sign and then a non-empty run of digits; the result is in the `i32` range and is the digits' value, negated after `-` |
| Scalars.ParseI32Accepts | src/common.rs:38 | An accepted text is the signed decimal rendering of the result, with leading zeros allowed |
| Scalars.ParseU64OfDecimal | src/common.rs:38 | Every `u64` parses back from its decimal rendering |
| Scalars.ParseU64Rejects | src/common.rs:38 | The empty string, a lone `+`, a minus sign and non-digits are not `u64` values |
| Scalars.ParseU64Overflow | src/common.rs:38 | Numbers of 2^64 and above are not `u64` values |
| Scalars.ParseI32OfDecimal | src/common.rs:38 | Every `i32` parses back from its signed decimal rendering |
| Scalars.ParseI32Rejects | src/common.rs:38 | Text starting with anything but a sign or a digit is not an `i32` |
| Sqlx.QueryBuilder.constructor | tests/sqlx_tests.rs:52 | A new builder holds only the initial SQL text |
| Sqlx.QueryBuilder.Push | src/sqlx.rs:48-49 | `push` appends one text event and keeps everything before it |
| Sqlx.QueryBuilder.PushBind | src/sqlx.rs:53 | `push_bind` appends one bound value and keeps everything before it |
| Sqlx.NumberOperatorSqlInjective | src/sqlx.rs:97-121 | The number operators have distinct SQL texts, so the text and the bound value determine the filter |
| Sqlx.NumberFiltersSql | src/sqlx.rs:91-125 | Without an identifier nothing is emitted; otherwise four events per filter |
| Sqlx.ApplyNumberFilter | src/sqlx.rs:95-122 | One number filter appends ` AND `, the column, its operator text and one bound value |
| Sqlx.ApplyNumberFilters | src/sqlx.rs:91-125 | The loop appends exactly `NumberFiltersSql`, leaving earlier events unchanged |
| Sqlx.NumberFiltersSqlAt | src/sqlx.rs:94-122 | The i-th group of four events is the i-th filter's clause on column `key()`, in list order |
| Sqlx.AliasNamesTheColumn | src/sqlx.rs:93 | With an alias, the emitted column is the alias |
| Sqlx.StringFiltersSql | src/sqlx.rs:44-82 | Without an identifier nothing is emitted; otherwise four events per filter |
| Sqlx.ApplyStringFilter | src/sqlx.rs:48-79 | One string filter appends ` AND `, the column, its operator text and its bound value or pattern |
| Sqlx.ApplyStringFilters | src/sqlx.rs:44-82 | The loop appends exactly `StringFiltersSql`, leaving earlier events unchanged |
| Sqlx.StringFiltersSqlAt | src/sqlx.rs:47-79 | The i-th group of four events is the i-th filter's clause on column `key()`, in list order |
| Sqlx.LikeLiteral | src/sqlx.rs:59-66 | A pattern without `%` or `_` matches only itself |
| Sqlx.LikeStartsWith | src/sqlx.rs:67-70 | `v%` matches exactly the strings that start with `v` |
| Sqlx.LikeEndsWith | src/sqlx.rs:71-74 | `%v` matches exactly the strings that end with `v` |
| Sqlx.LikeContains | src/sqlx.rs:75-78 | `%v%` matches exactly the strings that contain `v` |
| Sqlx.LikeBindMatches | src/sqlx.rs:59-66 | The `Like`/`NotLike` bind of a literal value matches exactly that value |
| Sqlx.StartsWithBindMatches | src/sqlx.rs:67-70 | The `StartsWith` bind matches exactly the strings with that prefix |
| Sqlx.EndsWithBindMatches | src/sqlx.rs:71-74 | The `EndsWith` bind matches exactly the strings with that suffix |
| Sqlx.ContainsBindMatches | src/sqlx.rs:75-78 | The `Contains` bind matches exactly the strings containing the value |
| Sqlx.EqualFilterSql | src/sqlx.rs:134-143 | Nothing is emitted exactly when the value or the identifier is absent; otherwise one ` = ` clause on `key()` |
| Sqlx.ApplyEqualFilter | src/sqlx.rs:134-143 | Appends exactly `EqualFilterSql` |
| Sqlx.OrderBySql | src/sqlx.rs:172-184 | Three events: ` ORDER BY `, the column `key()`, and ` ASC` exactly for `Asc` or ` DESC` exactly for `Desc` |
| Sqlx.ApplyOrderBy | src/sqlx.rs:172-184 | Appends exactly `OrderBySql` |
| Sqlx.OrderBySqlIgnoresPrefix | src/sqlx.rs:176-181 | Re-scoping an ordering does not change the emitted SQL |
| Sqlx.AsI64 | src/sqlx.rs:153 | `u64 as i64` lies in the `i64` range, agrees with the input modulo 2^64, and is negative exactly from 2^63 |
| Sqlx.AsI64Injective | src/sqlx.rs:153 | The cast loses no information |
| Sqlx.ApplyLimit | src/sqlx.rs:151-154 | Appends ` LIMIT ` and the value bound as `i64` |
| Sqlx.ApplySkip | src/sqlx.rs:162-165 | Appends ` OFFSET ` and the value bound as `i64` |
| Sqlx.LimitSql | src/sqlx.rs:151-154 | Two events: ` LIMIT ` and one bound integer in the `i64` range that agrees with the limit modulo 2^64 |
| Sqlx.SkipSql | src/sqlx.rs:162-165 | Two events: ` OFFSET ` and one bound integer in the `i64` range that agrees with the skip modulo 2^64 |
| Sqlx.DirectiveBindsValue | src/sqlx.rs:151-165 | Below 2^63 the bound limit and offset equal the parsed values |
| Sqlx.ApplyUserFilter | tests/sqlx_tests.rs:39-45 | The test's inner `apply` appends the name, age and active clauses in that order |
| Sqlx.UserFilterSql | tests/sqlx_tests.rs:39-45 | Four events per clause, and nothing at all exactly when every one of the three inner filters emits nothing |
| Sqlx.FromQueryFilterSql | src/sqlx.rs:193-206 | The inner filters' events come first, followed by three events for an ordering, two for a limit and two for an offset, each only when present, ORDER BY right after the inner events and OFFSET last |
| Sqlx.ApplyFromQueryFilter | src/sqlx.rs:193-206 | Appends the inner filters, then ORDER BY, LIMIT and OFFSET, each only when present |
| Sqlx.NameStartsWithSql | src/sqlx.rs:67-70 | `StartsWith(v)` on `name` emits `name LIKE` with `v%` bound |
| Sqlx.AgeRangeSql | src/sqlx.rs:94-122 | `[Gte(l), Lt(h)]` on `age` emits `age >= l` then `age < h` |
| Sqlx.UserQueryFilterSql | src/sqlx.rs:193-206 | The parsed example filter emits exactly the name, age, active, ORDER BY, LIMIT and OFFSET events |
| Sqlx.UserQueryToSql | src/sqlx.rs:193-206 | Every query shaped like the integration test's seven segments (tests/integration_tests.rs:36) parses, and applying it appends exactly the name, two age, active, ORDER BY, LIMIT and OFFSET events |
| Sqlx.SqlxQueryFilterSql | src/sqlx.rs:193-206 | The parsed filter of the SQL builder test emits exactly ` AND name LIKE`, ` AND age >=`, ` AND active =`, ` ORDER BY field DESC`, ` LIMIT` and ` OFFSET`, each comparison and directive with its value bound |
| Sqlx.AgeLowerBoundSql | tests/sqlx_tests.rs:49 | A lone `Gte(low)` on `age` is one ` AND age >= ?` clause binding `low` |
| Sqlx.SqlxQueryToSql | tests/sqlx_tests.rs:47-73 | Every query shaped like `name[sw]=Ali&age[gte]=18&active=true&limit=10&skip=5&order_by[desc]=age` parses, and its SQL is exactly the six parts the test expects, in order: name LIKE, age >=, active =, ORDER BY field DESC, LIMIT, OFFSET |

## Left out

- Unicode `\w`: the Rust regex is Unicode-aware, but the model's word characters are ASCII `[A-Za-z0-9_]`. So do `[a-z]` and `\d`.
- The `OnceLock` cache around the compiled pattern (src/regex.rs:5-8) has no behaviour to state and is not modelled.
- The serde `Deserialize`/`Visitor` machinery: only the string logic of `visit_str` is modelled. The serde error values become a small datatype (number family) or a message string (string family).
- Rust `FromStr` for arbitrary types: every filter takes its value parser as a parameter. `Scalars` gives the `u64`, `i32`, `bool` and `String` instances the tests use.
- `EqualFilter::as_ref` (src/equal_filter.rs:17-19) is a borrowing view of the same value as `into_inner`; borrowing has no counterpart on values.
- The generic inner `apply` of `FromQueryFilter<T>` is modelled for the test suite's `UserFilter` only, since a generic `T: SqlxFilter` would be a trait.
- The SQL dialect, placeholder syntax and the database encoding of bound values are not modelled. The builder is an abstract list of text and bind events.
- URL decoding: the code performs none, and neither does the model.
- filtrum-derive/src/lib.rs (the derive macro), src/axum.rs (the HTTP extractor) and src/lib.rs (re-exports) are not part of this model.
- QueryFilters.UserQueryParsed: the integration test's literal query string is covered through every query of its shape, with symbolic name, bounds, flag, limit, skip and sort field, rather than through the literal text itself.
- QueryFilters.SqlxQueryParsed, Sqlx.SqlxQueryToSql: the SQL builder test's literal query is covered through every query of its shape, and its fixed `SELECT * FROM users WHERE 1=1` prefix is the builder's initial text, so the lemmas state the events appended after it.
- Sqlx.DirectiveBindsValue: states the bound value only below 2^63; above that, `Sqlx.AsI64` describes the wrapped value.

## Findings

| source | as written | input that shows it | evidently intended | confidence | as-written member | corrected member |
|---|---|---|---|---|---|---|
| src/regex.rs:8 | The operator group is `[a-z]+`, which has no `_` | `name[starts_with]=Ali` yields `[Eq("Ali")]` instead of `[StartsWith("Ali")]`; `not_like` and `ends_with` behave the same | `[a-z_]+`, so that the long codes, documented as query parameters at src/string_filter.rs:22-26 and decoded at src/string_filter.rs:43-47, reach `NotLike`, `StartsWith` and `EndsWith` from a query | medium; not executed | StringFilters.LongCodeWithUnderscoreReadsAsEq | StringFilters.LongCodeIntended |
