/**
  Sorting directives (src/order_by.rs): `order_by[asc]=field` or `order_by[desc]=field`.
  Only the first `order_by` segment is kept; the field is an unscoped identifier, which
  `FromStrPrefix` re-scopes under a table prefix.
*/
module Ordering {
  import opened Wrappers
  import opened Errors
  import opened FilterIds
  import opened QueryRegex
  import opened Common
  import Scalars

  datatype OrderBy = Asc(id: FilterId) | Desc(id: FilterId)

  /** The reserved field name of the directive. */
  const OrderByName: string := "order_by"

  /** `FromStrFilter::from_str`: only `asc` and `desc`; the value is the field to sort on. */
  function Decode(op: string, value: string): (r: Result<OrderBy, FilterParseError>)
    ensures r.Ok? <==> op == "asc" || op == "desc"
    ensures r.Err? ==> r.error == UnknownFilter
    ensures r.Ok? ==> r.value.id == Alone(value) && (r.value.Asc? <==> op == "asc")
  {
    match op
    case "asc" => Ok(Asc(FromString(value)))
    case "desc" => Ok(Desc(FromString(value)))
    case _ => Err(UnknownFilter)
  }

  /**
    `OrderBy::from_str`: the first `order_by` directive, if any. The parse fails exactly when
    the extraction does; otherwise it is absent exactly when no segment names `order_by`, and
    present it is the first such segment's direction and field, as an unscoped identifier.
  */
  function FromStr(query: string): (r: Result<Option<OrderBy>, FilterParseError>)
    ensures forall e :: r == Err(e) <==> Extracted(OrderByName, query, Scalars.ParseString, Decode) == Err(e)
    ensures r == Ok(None) <==>
      Extracted(OrderByName, query, Scalars.ParseString, Decode).Ok? && Matches(OrderByName, Segments(query)) == []
    ensures r.Ok? && r.value.Some? ==>
      var m := Matches(OrderByName, Segments(query))[0];
      && (m.op == "asc" || m.op == "desc")
      && r.value.value.Asc? == (m.op == "asc")
      && r.value.value.id == Alone(m.raw)
  {
    ExtractedFirst(OrderByName, query, Scalars.ParseString, Decode)
  }

  /**
    The closure of `from_str_prefix`: the same direction on the same field, scoped under
    `prefix`. It is only defined for an unscoped identifier, the one shape `FromStr` yields;
    the other arms of the source are `unreachable!`.
  */
  function Rescope(prefix: string, o: OrderBy): (r: OrderBy)
    requires o.id.Alone?
    ensures r.Asc? == o.Asc?
    ensures r.id.Id() == o.id.Id() && r.id.Prefix() == Some(prefix) && !r.id.WithPrefixAndAlias?
  {
    match o
    case Asc(id) => Asc(WithPrefix(prefix, id.id))
    case Desc(id) => Desc(WithPrefix(prefix, id.id))
  }

  /**
    `OrderBy::from_str_prefix`: `FromStr`, with the directive re-scoped under `prefix`.
    Re-scoping changes nothing but the scope: same errors, same presence, and a present
    directive keeps its direction and field and gets `prefix` as its scope, with no alias.
  */
  function FromStrPrefix(prefix: string, query: string): (r: Result<Option<OrderBy>, FilterParseError>)
    ensures FromStr(query).Err? ==> r == FromStr(query)
    ensures r.Err? <==> FromStr(query).Err?
    ensures r == Ok(None) <==> FromStr(query) == Ok(None)
    ensures r.Ok? && r.value.Some? ==>
      var s := FromStr(query);
      && s.Ok? && s.value.Some?
      && r.value.value.Asc? == s.value.value.Asc?
      && r.value.value.id.Id() == s.value.value.id.Id()
      && r.value.value.id.Prefix() == Some(prefix)
      && !r.value.value.id.WithPrefixAndAlias?
  {
    match FromStr(query)
    case Err(e) => Err(e)
    case Ok(None) => Ok(None)
    case Ok(Some(o)) => Ok(Some(Rescope(prefix, o)))
  }

  /** `order_by[asc]=name` sorts ascending on `name`, and `order_by[desc]=age` descending on `age`. */
  lemma FromStrDirection(dir: string, field: string)
    requires (dir == "asc" || dir == "desc") && '&' !in field
    ensures FromStr(FilterSegment(OrderByName, dir, field)) ==
      Ok(Some(if dir == "asc" then Asc(Alone(field)) else Desc(Alone(field))))
  {
    OrderByNameIsFieldName();
    assert IsOperatorCode(dir);
    ExtractedSingle(OrderByName, dir, field, Scalars.ParseString, Decode, field, Decode(dir, field).value);
  }

  /** `order_by=x` has no operator, which reads as `eq`, so it is `UnknownFilter`. */
  lemma FromStrWithoutDirection(field: string)
    requires '&' !in field
    ensures FromStr(OrderByName + "=" + field) == Err(UnknownFilter)
  {
    OrderByNameIsFieldName();
    assert IsOperatorCode("eq");
    ExtractedBareIsEq(OrderByName, OrderByName, field, Scalars.ParseString, Decode);
    ExtractedDecodeFails(OrderByName, "eq", field, Scalars.ParseString, Decode, field, UnknownFilter);
  }

  /** Any code but `asc` and `desc` is `UnknownFilter`. */
  lemma FromStrUnknownDirection(op: string, field: string)
    requires IsOperatorCode(op) && op != "asc" && op != "desc" && '&' !in field
    ensures FromStr(FilterSegment(OrderByName, op, field)) == Err(UnknownFilter)
  {
    OrderByNameIsFieldName();
    ExtractedDecodeFails(OrderByName, op, field, Scalars.ParseString, Decode, field, UnknownFilter);
  }

  /** Of two directives the first is kept. */
  lemma FromStrKeepsFirst(dir1: string, field1: string, dir2: string, field2: string)
    requires (dir1 == "asc" || dir1 == "desc") && (dir2 == "asc" || dir2 == "desc") && '&' !in field1 && '&' !in field2
    ensures FromStr(FilterSegment(OrderByName, dir1, field1) + "&" + FilterSegment(OrderByName, dir2, field2)) ==
      Ok(Some(if dir1 == "asc" then Asc(Alone(field1)) else Desc(Alone(field1))))
  {
    OrderByNameIsFieldName();
    assert IsOperatorCode(dir1) && IsOperatorCode(dir2);
    ExtractedFirstOfTwo(OrderByName, dir1, field1, dir2, field2, Scalars.ParseString, Decode,
      field1, Decode(dir1, field1).value, field2, Decode(dir2, field2).value);
  }

  /** A query with no `order_by` segment has no directive (the empty query, or one filter on another field). */
  lemma FromStrAbsent(name: string, op: string, raw: string)
    requires IsFieldName(name) && IsOperatorCode(op) && '&' !in raw && name != OrderByName
    ensures FromStr("") == Ok(None)
    ensures FromStr(FilterSegment(name, op, raw)) == Ok(None)
  {
    ExtractedOtherField(OrderByName, name, op, raw, Scalars.ParseString, Decode);
  }

  /** `order_by[asc]=name` under the prefix `user` sorts ascending on `name` scoped to `user`. */
  lemma FromStrPrefixDirection(prefix: string, dir: string, field: string)
    requires (dir == "asc" || dir == "desc") && '&' !in field
    ensures FromStrPrefix(prefix, FilterSegment(OrderByName, dir, field)) ==
      Ok(Some(if dir == "asc" then Asc(WithPrefix(prefix, field)) else Desc(WithPrefix(prefix, field))))
  {
    FromStrDirection(dir, field);
  }

  lemma OrderByNameIsFieldName()
    ensures IsFieldName(OrderByName)
  {
  }
}
