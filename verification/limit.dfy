/**
  The page size directive (src/limit.rs): the first `limit` segment, with a `u64` value.
  The operator code is ignored, so `limit=5` and `limit[gt]=5` are the same.
*/
module Limits {
  import opened Wrappers
  import opened Errors
  import opened QueryRegex
  import opened Common
  import opened Scalars

  datatype Limit = Limit(value: u64)

  /** The reserved field name of the directive. */
  const LimitName: string := "limit"

  /** `FromStrFilter::from_str`: every operator code is accepted and the value is kept. */
  function Decode(op: string, value: u64): (r: Result<Limit, FilterParseError>)
    ensures r.Ok? && r.value.value == value
  {
    Ok(Limit(value))
  }

  /**
    `Limit::from_str`: the first `limit` segment, if any. The parse fails exactly when the
    extraction does; otherwise the limit is absent exactly when no segment names `limit`,
    and present it is the first such segment's value read as a `u64`, whatever its operator code.
  */
  function FromStr(query: string): (r: Result<Option<Limit>, FilterParseError>)
    ensures forall e :: r == Err(e) <==> Extracted(LimitName, query, ParseU64, Decode) == Err(e)
    ensures r == Ok(None) <==> Extracted(LimitName, query, ParseU64, Decode).Ok? && Matches(LimitName, Segments(query)) == []
    ensures r.Ok? && r.value.Some? ==> ParseU64(Matches(LimitName, Segments(query))[0].raw) == Some(r.value.value.value)
  {
    ExtractedFirst(LimitName, query, ParseU64, Decode)
  }

  /** `limit=50` is a limit of 50. */
  lemma FromStrBareValue(n: u64)
    ensures FromStr(LimitName + "=" + Decimal(n as nat)) == Ok(Some(Limit(n)))
  {
    LimitNameIsFieldName();
    ParseU64OfDecimal(n);
    ExtractedDefaultOperator(LimitName, Decimal(n as nat), ParseU64, Decode, n, Limit(n));
  }

  /** Any operator code is accepted: `limit[gt]=5` is a limit of 5. */
  lemma FromStrAnyOperator(op: string, n: u64)
    requires IsOperatorCode(op)
    ensures FromStr(FilterSegment(LimitName, op, Decimal(n as nat))) == Ok(Some(Limit(n)))
  {
    LimitNameIsFieldName();
    ParseU64OfDecimal(n);
    ExtractedSingle(LimitName, op, Decimal(n as nat), ParseU64, Decode, n, Limit(n));
  }

  /** A value that is not a `u64` is a `Value` error (`limit=abc`). */
  lemma FromStrBadValue(raw: string)
    requires '&' !in raw && ParseU64(raw).None?
    ensures FromStr(LimitName + "=" + raw) == Err(Value)
  {
    LimitNameIsFieldName();
    assert IsOperatorCode("eq");
    ExtractedBareIsEq(LimitName, LimitName, raw, ParseU64, Decode);
    ExtractedBadValue(LimitName, "eq", raw, ParseU64, Decode);
  }

  /** Of two `limit` segments the first one's value is kept. */
  lemma FromStrKeepsFirst(op1: string, n1: u64, op2: string, n2: u64)
    requires IsOperatorCode(op1) && IsOperatorCode(op2)
    ensures FromStr(FilterSegment(LimitName, op1, Decimal(n1 as nat)) + "&" + FilterSegment(LimitName, op2, Decimal(n2 as nat)))
      == Ok(Some(Limit(n1)))
  {
    LimitNameIsFieldName();
    ParseU64OfDecimal(n1);
    ParseU64OfDecimal(n2);
    ExtractedFirstOfTwo(LimitName, op1, Decimal(n1 as nat), op2, Decimal(n2 as nat), ParseU64, Decode, n1, Limit(n1), n2, Limit(n2));
  }

  /** A query without a `limit` segment has no limit (`other=50`). */
  lemma FromStrAbsent(name: string, op: string, raw: string)
    requires IsFieldName(name) && IsOperatorCode(op) && '&' !in raw && name != LimitName
    ensures FromStr("") == Ok(None)
    ensures FromStr(FilterSegment(name, op, raw)) == Ok(None)
  {
    ExtractedOtherField(LimitName, name, op, raw, ParseU64, Decode);
  }

  lemma LimitNameIsFieldName()
    ensures IsFieldName(LimitName)
  {
  }
}
