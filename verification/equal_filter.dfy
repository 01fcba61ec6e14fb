/**
  Single-value equality filters (src/equal_filter.rs): the decoder ignores the operator
  code, and the field-level parser keeps only the FIRST value the extractor yields for
  the field, while still failing when any segment for it is malformed.
*/
module EqualFilters {
  import opened Wrappers
  import opened Errors
  import opened FilterIds
  import opened QueryRegex
  import opened Common

  /** At most one value for the field, and the identifier it was parsed under. */
  datatype EqualFilter<T> = EqualFilter(value: Option<T>, id: Option<FilterId>)
  {
    /** `into_inner`: the value, dropping the identifier. */
    function IntoInner(): Option<T> {
      value
    }
  }

  /** The identifier the decoder attaches; the field-level parser replaces it. */
  const Placeholder: FilterId := Alone("")

  /** `FromStrFilter::from_str`: every operator code is accepted and the value is carried as is. */
  function Decode<T>(op: string, value: T): (r: Result<EqualFilter<T>, FilterParseError>)
    ensures r.Ok? && r.value.IntoInner() == Some(value)
  {
    Ok(EqualFilter(Some(value), Some(Placeholder)))
  }

  /**
    `EqualFilter::from_id_value`: the first filter extracted under `searchId.Id()`, or no
    value when no segment names the field; either way the identifier is the caller's.
  */
  function FromIdValue<T>(searchId: FilterId, query: string, parse: string -> Option<T>): (r: Result<EqualFilter<T>, FilterParseError>)
    ensures r.Ok? ==> r.value.id == Some(searchId)
  {
    match ExtractedFirst(searchId.Id(), query, parse, Decode)
    case Err(e) => Err(e)
    case Ok(None) => Ok(EqualFilter(None, Some(searchId)))
    case Ok(Some(u)) => Ok(EqualFilter(u.value, Some(searchId)))
  }

  /** `EqualFilter::from_str`: a bare field name is an unscoped identifier. */
  function FromStr<T>(searchId: string, query: string, parse: string -> Option<T>): (r: Result<EqualFilter<T>, FilterParseError>)
    ensures r.Ok? ==> r.value.id == Some(Alone(searchId))
  {
    FromIdValue(FromString(searchId), query, parse)
  }

  /**
    The parse fails exactly when the extraction does, with the same error; otherwise the
    value is absent exactly when no segment names the field, and present it is the parsed
    value of the first such segment, whatever its operator code.
  */
  lemma FromIdValueSpec<T>(searchId: FilterId, query: string, parse: string -> Option<T>)
    ensures forall e :: FromIdValue(searchId, query, parse) == Err(e) <==> Extracted(searchId.Id(), query, parse, Decode) == Err(e)
    ensures var r := FromIdValue(searchId, query, parse);
      && (r.Ok? ==> (r.value.IntoInner().None? <==> Matches(searchId.Id(), Segments(query)) == []))
      && (r.Ok? && r.value.IntoInner().Some? ==>
            parse(Matches(searchId.Id(), Segments(query))[0].raw) == r.value.IntoInner())
  {
  }

  /** `age=20` gives the value 20. */
  lemma FromStrBareValue<T>(name: string, raw: string, parse: string -> Option<T>, v: T)
    requires IsFieldName(name) && '&' !in raw && parse(raw) == Some(v)
    ensures FromStr(name, name + "=" + raw, parse) == Ok(EqualFilter(Some(v), Some(Alone(name))))
  {
    ExtractedDefaultOperator(name, raw, parse, Decode, v, EqualFilter(Some(v), Some(Placeholder)));
  }

  /** Of two segments for the field, the first one's value is kept and the second is ignored. */
  lemma FromStrKeepsFirst<T>(name: string, op1: string, raw1: string, op2: string, raw2: string, parse: string -> Option<T>, v1: T, v2: T)
    requires IsFieldName(name) && IsOperatorCode(op1) && IsOperatorCode(op2) && '&' !in raw1 && '&' !in raw2
    requires parse(raw1) == Some(v1) && parse(raw2) == Some(v2)
    ensures FromStr(name, FilterSegment(name, op1, raw1) + "&" + FilterSegment(name, op2, raw2), parse)
      == Ok(EqualFilter(Some(v1), Some(Alone(name))))
  {
    ExtractedFirstOfTwo(name, op1, raw1, op2, raw2, parse, Decode, v1, Decode(op1, v1).value, v2, Decode(op2, v2).value);
  }

  /** A segment naming only another field leaves the value absent, with the identifier still set (`height=20` for `age`). */
  lemma FromStrOtherField<T>(name: string, other: string, op: string, raw: string, parse: string -> Option<T>)
    requires IsFieldName(other) && IsOperatorCode(op) && '&' !in raw && other != name
    ensures FromStr(name, FilterSegment(other, op, raw), parse) == Ok(EqualFilter(None, Some(Alone(name))))
  {
    ExtractedOtherField(name, other, op, raw, parse, Decode);
  }

  /** A value the parser refuses on a later segment fails the parse, though only the first value would be kept. */
  lemma FromStrLaterBadValue<T>(name: string, op1: string, raw1: string, op2: string, raw2: string, parse: string -> Option<T>, v1: T)
    requires IsFieldName(name) && IsOperatorCode(op1) && IsOperatorCode(op2) && '&' !in raw1 && '&' !in raw2
    requires parse(raw1) == Some(v1) && parse(raw2).None?
    ensures FromStr(name, FilterSegment(name, op1, raw1) + "&" + FilterSegment(name, op2, raw2), parse) == Err(Value)
  {
    ExtractedLaterBadValue(name, op1, raw1, op2, raw2, parse, Decode, v1, Decode(op1, v1).value);
  }
}
