/**
  The offset directive (src/skip.rs): the first `skip` segment, with a `u64` value.
  The operator code is ignored, so `skip=5` and `skip[gt]=5` are the same.
*/
module Skips {
  import opened Wrappers
  import opened Errors
  import opened QueryRegex
  import opened Common
  import opened Scalars

  datatype Skip = Skip(value: u64)

  /** The reserved field name of the directive. */
  const SkipName: string := "skip"

  /** `FromStrFilter::from_str`: every operator code is accepted and the value is kept. */
  function Decode(op: string, value: u64): (r: Result<Skip, FilterParseError>)
    ensures r.Ok? && r.value.value == value
  {
    Ok(Skip(value))
  }

  /**
    `Skip::from_str`: the first `skip` segment, if any. The parse fails exactly when the
    extraction does; otherwise the offset is absent exactly when no segment names `skip`,
    and present it is the first such segment's value read as a `u64`, whatever its operator code.
  */
  function FromStr(query: string): (r: Result<Option<Skip>, FilterParseError>)
    ensures forall e :: r == Err(e) <==> Extracted(SkipName, query, ParseU64, Decode) == Err(e)
    ensures r == Ok(None) <==> Extracted(SkipName, query, ParseU64, Decode).Ok? && Matches(SkipName, Segments(query)) == []
    ensures r.Ok? && r.value.Some? ==> ParseU64(Matches(SkipName, Segments(query))[0].raw) == Some(r.value.value.value)
  {
    ExtractedFirst(SkipName, query, ParseU64, Decode)
  }

  /** `skip=10` is an offset of 10. */
  lemma FromStrBareValue(n: u64)
    ensures FromStr(SkipName + "=" + Decimal(n as nat)) == Ok(Some(Skip(n)))
  {
    SkipNameIsFieldName();
    ParseU64OfDecimal(n);
    ExtractedDefaultOperator(SkipName, Decimal(n as nat), ParseU64, Decode, n, Skip(n));
  }

  /** Any operator code is accepted: `skip[gt]=5` is an offset of 5. */
  lemma FromStrAnyOperator(op: string, n: u64)
    requires IsOperatorCode(op)
    ensures FromStr(FilterSegment(SkipName, op, Decimal(n as nat))) == Ok(Some(Skip(n)))
  {
    SkipNameIsFieldName();
    ParseU64OfDecimal(n);
    ExtractedSingle(SkipName, op, Decimal(n as nat), ParseU64, Decode, n, Skip(n));
  }

  /** A value that is not a `u64` is a `Value` error (`skip=abc`). */
  lemma FromStrBadValue(raw: string)
    requires '&' !in raw && ParseU64(raw).None?
    ensures FromStr(SkipName + "=" + raw) == Err(Value)
  {
    SkipNameIsFieldName();
    assert IsOperatorCode("eq");
    ExtractedBareIsEq(SkipName, SkipName, raw, ParseU64, Decode);
    ExtractedBadValue(SkipName, "eq", raw, ParseU64, Decode);
  }

  /** Of two `skip` segments the first one's value is kept. */
  lemma FromStrKeepsFirst(op1: string, n1: u64, op2: string, n2: u64)
    requires IsOperatorCode(op1) && IsOperatorCode(op2)
    ensures FromStr(FilterSegment(SkipName, op1, Decimal(n1 as nat)) + "&" + FilterSegment(SkipName, op2, Decimal(n2 as nat)))
      == Ok(Some(Skip(n1)))
  {
    SkipNameIsFieldName();
    ParseU64OfDecimal(n1);
    ParseU64OfDecimal(n2);
    ExtractedFirstOfTwo(SkipName, op1, Decimal(n1 as nat), op2, Decimal(n2 as nat), ParseU64, Decode, n1, Skip(n1), n2, Skip(n2));
  }

  /** A query without a `skip` segment has no offset (`other=10`). */
  lemma FromStrAbsent(name: string, op: string, raw: string)
    requires IsFieldName(name) && IsOperatorCode(op) && '&' !in raw && name != SkipName
    ensures FromStr("") == Ok(None)
    ensures FromStr(FilterSegment(name, op, raw)) == Ok(None)
  {
    ExtractedOtherField(SkipName, name, op, raw, ParseU64, Decode);
  }

  lemma SkipNameIsFieldName()
    ensures IsFieldName(SkipName)
  {
  }
}
