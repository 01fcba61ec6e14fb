/**
  Numeric comparison filters (src/number_filter.rs): the operator table that decodes a
  code and a parsed value into a comparison, the field-level parser built on the
  extractor, and the dual-format string decoder of the deserializer (`gte=10` or `10`).
  The numeric type is generic: its `FromStr` is the `parse` parameter.
*/
module NumberFilters {
  import opened Wrappers
  import opened Errors
  import opened FilterIds
  import opened QueryRegex
  import opened Common
  import Scalars

  datatype NumberFilter<T> =
    | Eq(value: T)
    | Ne(value: T)
    | Gt(value: T)
    | Lt(value: T)
    | Gte(value: T)
    | Lte(value: T)

  /** The query operator code of each comparison. */
  function OperatorCode<T>(f: NumberFilter<T>): string {
    match f
    case Eq(_) => "eq"
    case Ne(_) => "ne"
    case Gt(_) => "gt"
    case Lt(_) => "lt"
    case Gte(_) => "gte"
    case Lte(_) => "lte"
  }

  const OperatorCodes: set<string> := {"eq", "ne", "gt", "lt", "gte", "lte"}

  /** `FromStrFilter::from_str`: the closed table of operator codes. */
  function Decode<T>(op: string, value: T): (r: Result<NumberFilter<T>, FilterParseError>)
    ensures r.Ok? <==> op in OperatorCodes
    ensures r.Err? ==> r.error == UnknownFilter
    ensures r.Ok? ==> r.value.value == value && OperatorCode(r.value) == op
  {
    match op
    case "eq" => Ok(Eq(value))
    case "ne" => Ok(Ne(value))
    case "gt" => Ok(Gt(value))
    case "lt" => Ok(Lt(value))
    case "gte" => Ok(Gte(value))
    case "lte" => Ok(Lte(value))
    case _ => Err(UnknownFilter)
  }

  /** Decoding a filter's own code and value gives the filter back: the table covers every comparison once. */
  lemma DecodeOperatorCode<T>(f: NumberFilter<T>)
    ensures OperatorCode(f) in OperatorCodes
    ensures Decode(OperatorCode(f), f.value) == Ok(f)
  {
  }

  /** The filters for one field, with the identifier they were parsed under. */
  datatype NumberFilters<T> = NumberFilters(filters: seq<NumberFilter<T>>, id: Option<FilterId>)

  /** `NumberFilters::from_id_value`: extract under `searchId.Id()` and keep the identifier. */
  function FromIdValue<T>(searchId: FilterId, query: string, parse: string -> Option<T>): (r: Result<NumberFilters<T>, FilterParseError>)
    ensures r.Ok? ==> r.value.id == Some(searchId)
  {
    match Extracted(searchId.Id(), query, parse, Decode)
    case Err(e) => Err(e)
    case Ok(filters) => Ok(NumberFilters(filters, Some(searchId)))
  }

  /** `NumberFilters::from_str`: a bare field name is an unscoped identifier. */
  function FromStr<T>(searchId: string, query: string, parse: string -> Option<T>): (r: Result<NumberFilters<T>, FilterParseError>)
    ensures r.Ok? ==> r.value.id == Some(Alone(searchId))
  {
    FromIdValue(FromString(searchId), query, parse)
  }

  /**
    A successful parse holds one filter per segment addressed to the field, in query
    order, each with that segment's operator code and parsed value; it fails exactly when
    the extraction does, with the same error, which an unknown operator code makes
    `UnknownFilter`.
  */
  lemma FromIdValueSpec<T>(searchId: FilterId, query: string, parse: string -> Option<T>)
    ensures forall e :: FromIdValue(searchId, query, parse) == Err(e) <==> Extracted(searchId.Id(), query, parse, Decode) == Err(e)
    ensures var r := FromIdValue(searchId, query, parse);
      r.Ok? ==>
        var ms := Matches(searchId.Id(), Segments(query));
        && |r.value.filters| == |ms|
        && forall i :: 0 <= i < |ms| ==>
             OperatorCode(r.value.filters[i]) == ms[i].op && parse(ms[i].raw) == Some(r.value.filters[i].value)
  {
    var x := Extracted(searchId.Id(), query, parse, Decode);
    if x.Ok? {
      ExtractedDecoded(searchId.Id(), query, x.value, parse, Decode);
    }
  }

  /** An operator code outside the table on the field's segment is `UnknownFilter` (`age[foo]=1`). */
  lemma UnknownOperatorFails<T>(name: string, op: string, raw: string, parse: string -> Option<T>)
    requires IsFieldName(name) && IsOperatorCode(op) && op !in OperatorCodes && '&' !in raw && parse(raw).Some?
    ensures FromStr(name, FilterSegment(name, op, raw), parse) == Err(UnknownFilter)
  {
    var part := FilterSegment(name, op, raw);
    FilterSegmentWithoutAmpersand(name, op, raw);
    SegmentsOfOne(part);
    var key := name + "[" + op + "]";
    MatchNameWithOperator(name, op);
    KeyShape(name, op);
    SegmentOutcomes(name, key, raw, parse, Decode);
    ScanStep([part], 0, SegmentStep(name, parse, Decode));
    assert [part][..1] == [part];
  }

  /** `age[gte]=18&age[lt]=100` gives exactly `[Gte(18), Lt(100)]` under `Alone("age")`. */
  lemma FromStrRange(name: string, low: nat, high: nat)
    requires IsFieldName(name) && low <= Scalars.I32_MAX && high <= Scalars.I32_MAX
    ensures var query := FilterSegment(name, "gte", Scalars.Decimal(low)) + "&" + FilterSegment(name, "lt", Scalars.Decimal(high));
      FromStr(name, query, Scalars.ParseI32) == Ok(NumberFilters([Gte(low), Lt(high)], Some(Alone(name))))
  {
    var query := FilterSegment(name, "gte", Scalars.Decimal(low)) + "&" + FilterSegment(name, "lt", Scalars.Decimal(high));
    assert Extracted<int, NumberFilter<int>>(name, query, Scalars.ParseI32, Decode) == Ok([Gte(low), Lt(high)]) by {
      Scalars.ParseI32OfDecimal(low);
      Scalars.ParseI32OfDecimal(high);
      assert Decode("gte", low) == Ok(Gte(low)) && Decode("lt", high) == Ok(Lt(high));
      ExtractedTwoFilters<int, NumberFilter<int>>(name, "gte", Scalars.Decimal(low), "lt", Scalars.Decimal(high),
        Scalars.ParseI32, Decode, low, Gte(low), high, Lt(high));
    }
  }

  // ---------------------------------------------------------------------------
  // The dual format of the deserializer

  /** Why `visit_str` refuses a string: a value that does not parse (the offending text), or an unknown key. */
  datatype VisitError = InvalidValue(unexpected: string) | UnknownNumberFilter

  /**
    `visit_str`: split on every `=`; anything but exactly two pieces is the whole string
    parsed as an `Eq` value; two pieces are a key and a value, the value parsed first and
    then the key looked up. A filter read from `key=value` has `key` as its code and the
    parsed value; a refused value is reported with its text; an unknown key is reported
    only for two pieces whose value parses.
  */
  function VisitStr<T>(v: string, parse: string -> Option<T>): (r: Result<NumberFilter<T>, VisitError>)
    ensures r.Ok? && |Split(v, '=')| != 2 ==> r.value.Eq? && parse(v) == Some(r.value.value)
    ensures r.Ok? && |Split(v, '=')| == 2 ==>
      OperatorCode(r.value) == Split(v, '=')[0] && parse(Split(v, '=')[1]) == Some(r.value.value)
    ensures r.Err? && r.error.InvalidValue? ==> parse(r.error.unexpected).None?
    ensures r == Err(UnknownNumberFilter) <==>
      |Split(v, '=')| == 2 && Split(v, '=')[0] !in OperatorCodes && parse(Split(v, '=')[1]).Some?
  {
    var parts := Split(v, '=');
    if |parts| != 2 then
      match parse(v)
      case None => Err(InvalidValue(v))
      case Some(x) => Ok(Eq(x))
    else
      var (key, value) := (parts[0], parts[1]);
      match parse(value)
      case None => Err(InvalidValue(value))
      case Some(x) =>
        match Decode(key, x)
        case Ok(f) => Ok(f)
        case Err(_) => Err(UnknownNumberFilter)
  }

  /** Without `=`, the whole string is an `Eq` value (`"10"` gives `Eq(10)`). */
  lemma VisitStrBareValue<T>(v: string, parse: string -> Option<T>)
    requires '=' !in v
    ensures VisitStr(v, parse) == if parse(v).Some? then Ok(Eq(parse(v).value)) else Err(InvalidValue(v))
  {
    SplitJoin([v], '=');
  }

  /** With one `=`, the value is parsed before the key is looked up (`"gte=10"` gives `Gte(10)`). */
  lemma VisitStrKeyValue<T>(key: string, value: string, parse: string -> Option<T>)
    requires '=' !in key && '=' !in value
    ensures VisitStr(key + "=" + value, parse) ==
      if parse(value).None? then Err(InvalidValue(value))
      else if key in OperatorCodes then Ok(Decode(key, parse(value).value).value)
      else Err(UnknownNumberFilter)
  {
    SplitJoin([key, value], '=');
    assert Join([key, value], '=') == key + "=" + value by {
      assert Join([value], '=') == value;
    }
  }

  /** Two or more `=` make the whole string the value, which a number parser then refuses. */
  lemma VisitStrManyEquals<T>(a: string, b: string, c: string, parse: string -> Option<T>)
    requires '=' !in a && '=' !in b
    ensures VisitStr(a + "=" + b + "=" + c, parse) ==
      if parse(a + "=" + b + "=" + c).Some? then Ok(Eq(parse(a + "=" + b + "=" + c).value))
      else Err(InvalidValue(a + "=" + b + "=" + c))
  {
    var v := a + "=" + b + "=" + c;
    assert v == a + "=" + (b + "=" + c);
    SplitAfterFirst(a, b + "=" + c, '=');
    SplitAfterFirst(b, c, '=');
  }

  /** The dual format reads back every filter written as `code=value`. */
  lemma VisitStrRoundTrip<T>(f: NumberFilter<T>, raw: string, parse: string -> Option<T>)
    requires '=' !in raw && parse(raw) == Some(f.value)
    ensures VisitStr(OperatorCode(f) + "=" + raw, parse) == Ok(f)
  {
    DecodeOperatorCode(f);
    VisitStrKeyValue(OperatorCode(f), raw, parse);
  }
}
