/**
  Text comparison filters (src/string_filter.rs): the operator table, in which each
  pattern operator has a long code and a short alias, the field-level parser built on
  the extractor, and the dual-format string decoder of the deserializer (`like=john`
  or `john`). The value type is generic in the parser; the deserializer works on strings.
*/
module StringFilters {
  import opened Wrappers
  import opened Errors
  import opened FilterIds
  import opened QueryRegex
  import opened Common
  import Scalars

  datatype StringFilter<T> =
    | Eq(value: T)
    | Ne(value: T)
    | Like(value: T)
    | NotLike(value: T)
    | StartsWith(value: T)
    | EndsWith(value: T)
    | Contains(value: T)

  /** The long operator code of each comparison. */
  function OperatorCode<T>(f: StringFilter<T>): string {
    match f
    case Eq(_) => "eq"
    case Ne(_) => "ne"
    case Like(_) => "like"
    case NotLike(_) => "not_like"
    case StartsWith(_) => "starts_with"
    case EndsWith(_) => "ends_with"
    case Contains(_) => "contains"
  }

  /** The short aliases and the long code each stands for. */
  const Aliases: map<string, string> :=
    map["l" := "like", "nl" := "not_like", "sw" := "starts_with", "ew" := "ends_with", "c" := "contains"]

  const LongCodes: set<string> := {"eq", "ne", "like", "not_like", "starts_with", "ends_with", "contains"}

  /** The long code an accepted code stands for. */
  function Canonical(op: string): string {
    if op in Aliases then Aliases[op] else op
  }

  /** `FromStrFilter::from_str`: the closed table of codes, long and short. */
  function Decode<T>(op: string, value: T): (r: Result<StringFilter<T>, FilterParseError>)
    ensures r.Ok? <==> op in LongCodes || op in Aliases
    ensures r.Err? ==> r.error == UnknownFilter
    ensures r.Ok? ==> r.value.value == value && OperatorCode(r.value) == Canonical(op)
  {
    match op
    case "eq" => Ok(Eq(value))
    case "ne" => Ok(Ne(value))
    case "like" => Ok(Like(value))
    case "l" => Ok(Like(value))
    case "not_like" => Ok(NotLike(value))
    case "nl" => Ok(NotLike(value))
    case "starts_with" => Ok(StartsWith(value))
    case "sw" => Ok(StartsWith(value))
    case "ends_with" => Ok(EndsWith(value))
    case "ew" => Ok(EndsWith(value))
    case "contains" => Ok(Contains(value))
    case "c" => Ok(Contains(value))
    case _ => Err(UnknownFilter)
  }

  /** A short alias decodes exactly as the long code it stands for. */
  lemma AliasDecodesAsLongCode<T>(alias: string, value: T)
    requires alias in Aliases
    ensures Aliases[alias] in LongCodes
    ensures Decode(alias, value) == Decode(Aliases[alias], value)
  {
  }

  /** Decoding a filter's own long code and value gives the filter back. */
  lemma DecodeOperatorCode<T>(f: StringFilter<T>)
    ensures OperatorCode(f) in LongCodes
    ensures Decode(OperatorCode(f), f.value) == Ok(f)
  {
  }

  /** The filters for one field, with the identifier they were parsed under. */
  datatype StringFilters<T> = StringFilters(filters: seq<StringFilter<T>>, id: Option<FilterId>)

  /** `StringFilters::from_id_value`: extract under `searchId.Id()` and keep the identifier. */
  function FromIdValue<T>(searchId: FilterId, query: string, parse: string -> Option<T>): (r: Result<StringFilters<T>, FilterParseError>)
    ensures r.Ok? ==> r.value.id == Some(searchId)
  {
    match Extracted(searchId.Id(), query, parse, Decode)
    case Err(e) => Err(e)
    case Ok(filters) => Ok(StringFilters(filters, Some(searchId)))
  }

  /** `StringFilters::from_str`: a bare field name is an unscoped identifier. */
  function FromStr<T>(searchId: string, query: string, parse: string -> Option<T>): (r: Result<StringFilters<T>, FilterParseError>)
    ensures r.Ok? ==> r.value.id == Some(Alone(searchId))
  {
    FromIdValue(FromString(searchId), query, parse)
  }

  /**
    A successful parse holds one filter per segment addressed to the field, in query
    order, each with the long code of that segment's operator and its parsed value; it fails
    exactly when the extraction does, with the same error.
  */
  lemma FromIdValueSpec<T>(searchId: FilterId, query: string, parse: string -> Option<T>)
    ensures forall e :: FromIdValue(searchId, query, parse) == Err(e) <==> Extracted(searchId.Id(), query, parse, Decode) == Err(e)
    ensures var r := FromIdValue(searchId, query, parse);
      r.Ok? ==>
        var ms := Matches(searchId.Id(), Segments(query));
        && |r.value.filters| == |ms|
        && forall i :: 0 <= i < |ms| ==>
             OperatorCode(r.value.filters[i]) == Canonical(ms[i].op) && parse(ms[i].raw) == Some(r.value.filters[i].value)
  {
    var x := Extracted(searchId.Id(), query, parse, Decode);
    if x.Ok? {
      ExtractedDecoded(searchId.Id(), query, x.value, parse, Decode);
    }
  }

  /** `name[like]=john&name[ne]=doe` gives exactly `[Like("john"), Ne("doe")]` under `Alone("name")`. */
  lemma FromStrLikeAndNe(name: string, a: string, b: string)
    requires IsFieldName(name) && '&' !in a && '&' !in b
    ensures var query := FilterSegment(name, "like", a) + "&" + FilterSegment(name, "ne", b);
      FromStr(name, query, Scalars.ParseString) == Ok(StringFilters([Like(a), Ne(b)], Some(Alone(name))))
  {
    var query := FilterSegment(name, "like", a) + "&" + FilterSegment(name, "ne", b);
    assert Extracted<string, StringFilter<string>>(name, query, Scalars.ParseString, Decode) == Ok([Like(a), Ne(b)]) by {
      assert Decode("like", a) == Ok(Like(a)) && Decode("ne", b) == Ok(Ne(b));
      ExtractedTwoFilters<string, StringFilter<string>>(name, "like", a, "ne", b, Scalars.ParseString, Decode, a, Like(a), b, Ne(b));
    }
  }

  /** The key `name[letters_tail]` captures the name alone, and holds neither `=` nor `&`. */
  lemma UnderscoredKey(name: string, letters: string, tail: string)
    requires IsFieldName(name) && IsOperatorCode(letters) && '=' !in tail && '&' !in tail
    ensures var key := name + "[" + letters + "_" + tail + "]";
      Match(key) == Some(Captures(name, None, None)) && '=' !in key && '&' !in key
  {
    var key := name + "[" + letters + "_" + tail + "]";
    assert key == name + "[" + letters + ("_" + tail + "]");
    MatchUnclosedOperator(name, letters, "_" + tail + "]");
    KeyShape(name, letters);
    assert '=' !in name && '&' !in name by {
      assert name + "[" + letters + "]" == name + ("[" + letters + "]");
    }
  }

  /**
    A code holding `_` is not captured as an operator, so in a query the key has no
    operator and reads as `eq`: `name[not_like]=x` gives `Eq(x)`, and so do
    `starts_with` and `ends_with`; only their short aliases reach the table from a query.
  */
  lemma UnderscoredCodeReadsAsEq(name: string, letters: string, tail: string, v: string)
    requires IsFieldName(name) && IsOperatorCode(letters)
    requires '=' !in tail && '&' !in tail && '&' !in v
    ensures var key := name + "[" + letters + "_" + tail + "]";
      FromStr(name, key + "=" + v, Scalars.ParseString) == Ok(StringFilters([Eq(v)], Some(Alone(name))))
  {
    var key := name + "[" + letters + "_" + tail + "]";
    assert Extracted<string, StringFilter<string>>(name, key + "=" + v, Scalars.ParseString, Decode) == Ok([Eq(v)]) by {
      UnderscoredKey(name, letters, tail);
      assert Decode("eq", v) == Ok(Eq(v));
      ExtractedOneSegment<string, StringFilter<string>>(name, key, v, Scalars.ParseString, Decode, Captures(name, None, None), v, Eq(v));
    }
  }

  /** The three long codes with `_` all read as `eq` in a query. */
  lemma LongCodeWithUnderscoreReadsAsEq(name: string, code: string, v: string)
    requires IsFieldName(name) && '&' !in v
    requires code == "not_like" || code == "starts_with" || code == "ends_with"
    ensures FromStr(name, name + "[" + code + "]=" + v, Scalars.ParseString) == Ok(StringFilters([Eq(v)], Some(Alone(name))))
  {
    var letters, tail := if code == "not_like" then "not" else if code == "starts_with" then "starts" else "ends",
                         if code == "not_like" then "like" else "with";
    assert letters + "_" + tail == code;
    assert name + "[" + letters + "_" + tail + "]" + "=" + v == name + "[" + code + "]=" + v;
    UnderscoredCodeReadsAsEq(name, letters, tail, v);
  }

  /** Every long code is a non-empty run of lower-case letters and `_`. */
  lemma LongCodeIsOperatorWord<T>(f: StringFilter<T>)
    ensures |OperatorCode(f)| > 0
    ensures forall j :: 0 <= j < |OperatorCode(f)| ==> IsOperatorChar(OperatorCode(f)[j])
  {
    var code := OperatorCode(f);
    forall j | 0 <= j < |code| ensures IsOperatorChar(code[j]) {
      match f
      case Eq(_) =>
      case Ne(_) =>
      case Like(_) =>
      case NotLike(_) =>
      case StartsWith(_) =>
      case EndsWith(_) =>
      case Contains(_) =>
    }
  }

  /**
    With the operator class widened to `[a-z_]+`, every long code the variants document is
    captured from `name[code]` and decodes to its own variant: `name[starts_with]` reaches
    `StartsWith`, `name[not_like]` reaches `NotLike`, `name[ends_with]` reaches `EndsWith`.
  */
  lemma LongCodeIntended<T>(name: string, f: StringFilter<T>)
    requires IsFieldName(name)
    ensures MatchIntended(name + "[" + OperatorCode(f) + "]") == Some(Captures(name, Some(OperatorCode(f)), None))
    ensures Decode(OperatorCode(f), f.value) == Ok(f)
  {
    LongCodeIsOperatorWord(f);
    MatchIntendedOperator(name, OperatorCode(f));
    DecodeOperatorCode(f);
  }

  // ---------------------------------------------------------------------------
  // The dual format of the deserializer (on `String` values)

  /**
    `visit_str`: split on every `=`; anything but exactly two pieces is the whole string
    as an `Eq` value, which never fails; two pieces are a code and a value, and an unknown
    code is an error.
  */
  function VisitStr(v: string): (r: Result<StringFilter<string>, string>)
    ensures |Split(v, '=')| != 2 ==> r == Ok(Eq(v))
    ensures r.Err? ==> |Split(v, '=')| == 2 && Split(v, '=')[0] !in LongCodes && Split(v, '=')[0] !in Aliases
  {
    var parts := Split(v, '=');
    if |parts| != 2 then Ok(Eq(v))
    else
      var (key, value) := (parts[0], parts[1]);
      match Decode(key, value)
      case Ok(f) => Ok(f)
      case Err(_) => Err("unknown string filter")
  }

  /** A string without `=` is one piece, so it is read whole (`"john"` gives `Eq("john")`). */
  lemma VisitStrWithoutEquals(v: string)
    requires '=' !in v
    ensures VisitStr(v) == Ok(Eq(v))
  {
    SplitJoin([v], '=');
  }

  /** With one `=`, the code is looked up in the table (`"like=john"` gives `Like("john")`); an unknown code fails. */
  lemma VisitStrKeyValue(key: string, value: string)
    requires '=' !in key && '=' !in value
    ensures VisitStr(key + "=" + value) ==
      if key in LongCodes || key in Aliases then Ok(Decode(key, value).value) else Err("unknown string filter")
  {
    SplitJoin([key, value], '=');
    assert Join([key, value], '=') == key + "=" + value by {
      assert Join([value], '=') == value;
    }
  }

  /** The dual format reads back every filter written as `code=value`. */
  lemma VisitStrRoundTrip(f: StringFilter<string>)
    requires '=' !in f.value
    ensures VisitStr(OperatorCode(f) + "=" + f.value) == Ok(f)
  {
    DecodeOperatorCode(f);
    assert '=' !in OperatorCode(f);
    VisitStrKeyValue(OperatorCode(f), f.value);
  }
}
