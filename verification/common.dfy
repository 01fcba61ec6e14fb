/**
  The multi-value extractor (src/common.rs): given the field name to look for and the
  raw query string, it returns every decoded filter addressed to that field, in the
  order the segments appear, or the first error met in a left-to-right scan.

  `FromStr` is the extractor as the source writes it, a loop that pushes onto a list
  and returns early on an error. `Extracted` is the same computation as a function,
  which the filter families build on; the lemmas below state what it guarantees.
  The value parser (`V: FromStr`) and the family's operator decoder
  (`FromStrFilter::from_str`) are parameters.
*/
module Common {
  import opened Wrappers
  import opened Errors
  import opened QueryRegex
  import Scalars

  // ---------------------------------------------------------------------------
  // The string operations the extractor relies on: `str::split`, `str::split_once`

  /** The position of the first `c` in `s`, if any. */
  function IndexOf(s: string, c: char): (r: Option<nat>)
    ensures r.None? <==> c !in s
    ensures r.Some? ==> r.value < |s| && s[r.value] == c && c !in s[..r.value]
  {
    if |s| == 0 then None
    else if s[0] == c then Some(0)
    else
      match IndexOf(s[1..], c)
      case None => None
      case Some(k) =>
        assert s[..k + 1] == [s[0]] + s[1..][..k];
        Some(k + 1)
  }

  /** The pieces joined back with the separator between consecutive ones. */
  function Join(parts: seq<string>, sep: char): string
    requires |parts| > 0
  {
    if |parts| == 1 then parts[0] else parts[0] + [sep] + Join(parts[1..], sep)
  }

  /** `str::split(sep)`: the maximal separator-free pieces; `""` gives `[""]`, and `"a&"` gives `["a", ""]`. */
  function Split(s: string, sep: char): (parts: seq<string>)
    ensures |parts| > 0
    ensures forall i :: 0 <= i < |parts| ==> sep !in parts[i]
    ensures Join(parts, sep) == s
    decreases |s|
  {
    match IndexOf(s, sep)
    case None => [s]
    case Some(k) =>
      var rest := Split(s[k + 1..], sep);
      assert s == s[..k] + [sep] + s[k + 1..];
      assert ([s[..k]] + rest)[1..] == rest;
      [s[..k]] + rest
  }

  /** `str::split_once(sep)`: the text before the first separator and everything after it. */
  function SplitOnce(s: string, sep: char): (r: Option<(string, string)>)
    ensures r.None? <==> sep !in s
    ensures r.Some? ==> r.value.0 + [sep] + r.value.1 == s && sep !in r.value.0
  {
    match IndexOf(s, sep)
    case None => None
    case Some(k) =>
      assert s == s[..k] + [sep] + s[k + 1..];
      Some((s[..k], s[k + 1..]))
  }

  /** Splitting undoes joining separator-free pieces, so `Split` is the only such decomposition. */
  lemma {:induction false} SplitJoin(parts: seq<string>, sep: char)
    requires |parts| > 0
    requires forall i :: 0 <= i < |parts| ==> sep !in parts[i]
    ensures Split(Join(parts, sep), sep) == parts
    decreases |parts|
  {
    var s := Join(parts, sep);
    if |parts| == 1 {
      assert IndexOf(s, sep).None?;
    } else {
      var rest := Join(parts[1..], sep);
      assert s == parts[0] + [sep] + rest;
      var k := |parts[0]|;
      assert s[k] == sep && s[..k] == parts[0];
      SplitOnceAt(parts[0], rest, sep);
      assert IndexOf(s, sep) == Some(k);
      assert s[k + 1..] == rest;
      SplitJoin(parts[1..], sep);
    }
  }

  /** The first separator of `a + [sep] + b` is the one after `a` when `a` has none. */
  lemma SplitOnceAt(a: string, b: string, sep: char)
    requires sep !in a
    ensures IndexOf(a + [sep] + b, sep) == Some(|a|)
    ensures SplitOnce(a + [sep] + b, sep) == Some((a, b))
  {
    var s := a + [sep] + b;
    assert s[|a|] == sep;
    assert forall j :: 0 <= j < |a| ==> s[j] == a[j];
    assert s[..|a|] == a && s[|a| + 1..] == b;
  }

  /** Splitting at a first separator: the piece before it, then the pieces of the rest. */
  lemma SplitAfterFirst(a: string, rest: string, sep: char)
    requires sep !in a
    ensures Split(a + [sep] + rest, sep) == [a] + Split(rest, sep)
  {
    var s := a + [sep] + rest;
    SplitOnceAt(a, rest, sep);
    assert s[..|a|] == a && s[|a| + 1..] == rest;
  }

  // ---------------------------------------------------------------------------
  // One segment

  /** The operator code of a key, `eq` when the key has none. */
  function OperatorOrEq(op: Option<string>): string {
    if op.Some? then op.value else "eq"
  }

  /** The operator code and raw value of a segment addressed to the searched field. */
  datatype RawPair = RawPair(op: string, raw: string)

  /**
    What the structural part of the scan makes of one segment: an error when it has no
    `=` or its key has no word character, nothing when the key names another field,
    and otherwise the operator code and the unparsed value.
  */
  function Locate(searchId: string, part: string): (r: Result<Option<RawPair>, FilterParseError>)
    ensures r.Err? ==> r.error == FilterStructure
    ensures r.Err? <==> SplitOnce(part, '=').None? || !HasWordChar(SplitOnce(part, '=').value.0)
    ensures r.Ok? && r.value.Some? ==>
      && Match(SplitOnce(part, '=').value.0).value.name == searchId
      && IsOperatorCode(r.value.value.op)
      && r.value.value.raw == SplitOnce(part, '=').value.1
  {
    match SplitOnce(part, '=')
    case None => Err(FilterStructure)
    case Some((key, raw)) =>
      match Match(key)
      case None => Err(FilterStructure)
      case Some(c) =>
        if c.name != searchId then Ok(None) else Ok(Some(RawPair(OperatorOrEq(c.op), raw)))
  }

  /** What one segment contributes: the structural check, then the value parse, then the decode. */
  function Segment<V, T>(
    searchId: string, part: string,
    parse: string -> Option<V>, decode: (string, V) -> Result<T, FilterParseError>
  ): Result<Option<T>, FilterParseError>
  {
    match Locate(searchId, part)
    case Err(e) => Err(e)
    case Ok(None) => Ok(None)
    case Ok(Some(pair)) =>
      match parse(pair.raw)
      case None => Err(Value)
      case Some(v) =>
        match decode(pair.op, v)
        case Err(e) => Err(e)
        case Ok(t) => Ok(Some(t))
  }

  // ---------------------------------------------------------------------------
  // The whole query

  /** Contributions of `parts` in order, stopping at the first error. */
  function Scan<P, T>(parts: seq<P>, step: P -> Result<Option<T>, FilterParseError>): (r: Result<seq<T>, FilterParseError>)
    ensures r.Ok? ==> |r.value| <= |parts|
    decreases |parts|
  {
    if parts == [] then Ok([])
    else
      match Scan(parts[..|parts| - 1], step)
      case Err(e) => Err(e)
      case Ok(ts) =>
        match step(parts[|parts| - 1])
        case Err(e) => Err(e)
        case Ok(None) => Ok(ts)
        case Ok(Some(t)) => Ok(ts + [t])
  }

  /** `Segment` for a fixed field, parser and decoder. */
  function SegmentStep<V, T>(
    searchId: string, parse: string -> Option<V>, decode: (string, V) -> Result<T, FilterParseError>
  ): string -> Result<Option<T>, FilterParseError> {
    part => Segment(searchId, part, parse, decode)
  }

  /** The segments of a query: none for the empty query, otherwise the pieces between `&`s. */
  function Segments(query: string): seq<string> {
    if query == "" then [] else Split(query, '&')
  }

  /** The extractor as a function: nothing from the empty query, and at most one filter per segment. */
  function Extracted<V, T>(
    searchId: string, query: string,
    parse: string -> Option<V>, decode: (string, V) -> Result<T, FilterParseError>
  ): (r: Result<seq<T>, FilterParseError>)
    ensures query == "" ==> r == Ok([])
    ensures r.Ok? ==> |r.value| <= |Segments(query)|
  {
    Scan(Segments(query), SegmentStep(searchId, parse, decode))
  }

  /** The segments addressed to `searchId` among the well-formed ones, unparsed, in order. */
  function Matches(searchId: string, parts: seq<string>): seq<RawPair>
    decreases |parts|
  {
    if parts == [] then []
    else
      var prefix := Matches(searchId, parts[..|parts| - 1]);
      match Locate(searchId, parts[|parts| - 1])
      case Ok(Some(pair)) => prefix + [pair]
      case _ => prefix
  }

  /** `ts` is what parsing and decoding the raw pairs `ms` one by one yields. */
  ghost predicate DecodedFrom<V, T>(
    ms: seq<RawPair>, ts: seq<T>,
    parse: string -> Option<V>, decode: (string, V) -> Result<T, FilterParseError>
  ) {
    && |ms| == |ts|
    && forall i :: 0 <= i < |ms| ==>
         parse(ms[i].raw).Some? && decode(ms[i].op, parse(ms[i].raw).value) == Ok(ts[i])
  }

  // ---------------------------------------------------------------------------
  // The extractor as the source writes it

  /** `common::from_str`: a loop over the `&`-separated segments that pushes each decoded filter. */
  method FromStr<V, T>(
    searchId: string, query: string,
    parse: string -> Option<V>, decode: (string, V) -> Result<T, FilterParseError>
  ) returns (r: Result<seq<T>, FilterParseError>)
    ensures r == Extracted(searchId, query, parse, decode)
  {
    if query == "" {
      return Ok([]);
    }
    var parts := Split(query, '&');
    ghost var step := SegmentStep(searchId, parse, decode);
    var filters: seq<T> := [];
    var i := 0;
    while i < |parts|
      invariant 0 <= i <= |parts|
      invariant Scan(parts[..i], step) == Ok(filters)
    {
      var part := parts[i];
      ScanStep(parts, i, step);
      var halves := SplitOnce(part, '=');
      if halves.None? {
        assert step(part) == Err(FilterStructure);
        ScanErrorPersists(parts, i + 1, FilterStructure, step);
        return Err(FilterStructure);
      }
      var (key, raw) := halves.value;
      var captures := Match(key);
      if captures.None? {
        assert step(part) == Err(FilterStructure);
        ScanErrorPersists(parts, i + 1, FilterStructure, step);
        return Err(FilterStructure);
      }
      var filter := if captures.value.op.Some? then captures.value.op.value else "eq";
      if captures.value.name != searchId {
        assert step(part) == Ok(None);
        i := i + 1;
        continue;
      }
      assert Locate(searchId, part) == Ok(Some(RawPair(filter, raw)));
      var value := parse(raw);
      if value.None? {
        assert step(part) == Err(Value);
        ScanErrorPersists(parts, i + 1, Value, step);
        return Err(Value);
      }
      var decoded := decode(filter, value.value);
      if decoded.Err? {
        assert step(part) == Err(decoded.error);
        ScanErrorPersists(parts, i + 1, decoded.error, step);
        return Err(decoded.error);
      }
      assert step(part) == Ok(Some(decoded.value));
      filters := filters + [decoded.value];
      i := i + 1;
    }
    assert parts[..i] == parts;
    return Ok(filters);
  }

  // ---------------------------------------------------------------------------
  // Properties of the scan, for any step function

  /** Extending the scanned prefix by one part adds that part's contribution. */
  lemma ScanStep<T>(parts: seq<string>, i: nat, step: string -> Result<Option<T>, FilterParseError>)
    requires i < |parts|
    ensures Scan(parts[..i + 1], step) ==
      match Scan(parts[..i], step)
      case Err(e) => Err(e)
      case Ok(ts) =>
        match step(parts[i])
        case Err(e) => Err(e)
        case Ok(None) => Ok(ts)
        case Ok(Some(t)) => Ok(ts + [t])
  {
    assert parts[..i + 1][..i] == parts[..i];
  }

  /** Once a prefix of the parts has failed, the whole scan fails with the same error. */
  lemma {:induction false} ScanErrorPersists<T>(
    parts: seq<string>, n: nat, e: FilterParseError, step: string -> Result<Option<T>, FilterParseError>
  )
    requires n <= |parts|
    requires Scan(parts[..n], step) == Err(e)
    ensures Scan(parts, step) == Err(e)
    decreases |parts| - n
  {
    if n < |parts| {
      ScanStep(parts, n, step);
      ScanErrorPersists(parts, n + 1, e, step);
    } else {
      assert parts[..n] == parts;
    }
  }

  /** The scan succeeds exactly when every step does. */
  lemma {:induction false} ScanOk<T>(parts: seq<string>, step: string -> Result<Option<T>, FilterParseError>)
    ensures Scan(parts, step).Ok? <==> forall i :: 0 <= i < |parts| ==> step(parts[i]).Ok?
    decreases |parts|
  {
    if parts != [] {
      var init := parts[..|parts| - 1];
      ScanOk(init, step);
      assert forall i :: 0 <= i < |init| ==> init[i] == parts[i];
    }
  }

  /** When every part contributes a value, the scan yields exactly those values in order. */
  lemma {:induction false} ScanAllContribute<T>(
    parts: seq<string>, ts: seq<T>, step: string -> Result<Option<T>, FilterParseError>
  )
    requires |ts| == |parts|
    requires forall i :: 0 <= i < |parts| ==> step(parts[i]) == Ok(Some(ts[i]))
    ensures Scan(parts, step) == Ok(ts)
    decreases |parts|
  {
    if parts != [] {
      var n := |parts| - 1;
      var init := parts[..n];
      assert forall i :: 0 <= i < |init| ==> init[i] == parts[i];
      ScanAllContribute(init, ts[..n], step);
      assert ts[..n] + [ts[n]] == ts;
    }
  }

  /** The values present in `picks`, in order. */
  function Present<T>(picks: seq<Option<T>>): (r: seq<T>)
    ensures |r| <= |picks|
  {
    if picks == [] then [] else (if picks[0].Some? then [picks[0].value] else []) + Present(picks[1..])
  }

  /** One more pick adds its value, if it has one, at the end. */
  lemma PresentSnoc<T>(picks: seq<Option<T>>, last: Option<T>)
    ensures Present(picks + [last]) == Present(picks) + (if last.Some? then [last.value] else [])
  {
    PresentAppend(picks, [last]);
    assert [last][1..] == [];
  }

  /** Picks without a value contribute nothing. */
  lemma {:induction false} PresentNone<T>(picks: seq<Option<T>>)
    requires forall i :: 0 <= i < |picks| ==> picks[i].None?
    ensures Present(picks) == []
    decreases |picks|
  {
    if picks != [] {
      PresentNone(picks[1..]);
    }
  }

  /** The values of two runs of picks are those of each, in order. */
  lemma {:induction false} PresentAppend<T>(a: seq<Option<T>>, b: seq<Option<T>>)
    ensures Present(a + b) == Present(a) + Present(b)
    decreases |a|
  {
    if a == [] {
      assert a + b == b;
    } else {
      var head := if a[0].Some? then [a[0].value] else [];
      assert (a + b)[0] == a[0] && (a + b)[1..] == a[1..] + b;
      assert Present(a + b) == head + Present(a[1..] + b);
      PresentAppend(a[1..], b);
      assert head + (Present(a[1..]) + Present(b)) == (head + Present(a[1..])) + Present(b);
    }
  }

  /** Picks with a value only at `k` give that one value. */
  lemma PresentOne<T>(picks: seq<Option<T>>, k: nat)
    requires k < |picks| && picks[k].Some?
    requires forall i :: 0 <= i < |picks| && i != k ==> picks[i].None?
    ensures Present(picks) == [picks[k].value]
  {
    assert picks == picks[..k] + ([picks[k]] + picks[k + 1..]);
    PresentAppend(picks[..k], [picks[k]] + picks[k + 1..]);
    PresentAppend([picks[k]], picks[k + 1..]);
    PresentNone(picks[..k]);
    PresentNone(picks[k + 1..]);
  }

  /** Picks with a value only at `j` and at the next index give those two values, in order. */
  lemma PresentTwo<T>(picks: seq<Option<T>>, j: nat)
    requires j + 1 < |picks| && picks[j].Some? && picks[j + 1].Some?
    requires forall i :: 0 <= i < |picks| && i != j && i != j + 1 ==> picks[i].None?
    ensures Present(picks) == [picks[j].value, picks[j + 1].value]
  {
    var (front, back) := (picks[..j + 1], picks[j + 1..]);
    assert picks == front + back;
    PresentAppend(front, back);
    PresentOne(front, j);
    PresentOne(back, 0);
  }

  /** When no part fails, the scan yields the contributed values in order and skips the rest. */
  lemma {:induction false} ScanPresent<P, T>(
    parts: seq<P>, picks: seq<Option<T>>, step: P -> Result<Option<T>, FilterParseError>
  )
    requires |picks| == |parts|
    requires forall i :: 0 <= i < |parts| ==> step(parts[i]) == Ok(picks[i])
    ensures Scan(parts, step) == Ok(Present(picks))
    decreases |parts|
  {
    if parts != [] {
      var n := |parts| - 1;
      assert forall i :: 0 <= i < n ==> parts[..n][i] == parts[i] && picks[..n][i] == picks[i];
      ScanPresent(parts[..n], picks[..n], step);
      assert step(parts[n]) == Ok(picks[n]);
      PresentSnoc(picks[..n], picks[n]);
      assert picks[..n] + [picks[n]] == picks;
      if picks[n].None? {
        assert Present(picks[..n]) + [] == Present(picks[..n]);
      }
    } else {
      assert picks == [];
    }
  }

  /** Two parts that both contribute give both values, in order. */
  lemma ScanBothContribute<T>(a: string, b: string, t1: T, t2: T, step: string -> Result<Option<T>, FilterParseError>)
    requires step(a) == Ok(Some(t1)) && step(b) == Ok(Some(t2))
    ensures Scan([a, b], step) == Ok([t1, t2])
  {
    ScanAllContribute([a, b], [t1, t2], step);
  }

  /** A contributing part followed by one that contributes nothing gives the first value alone. */
  lemma ScanContributeThenSkip<T>(a: string, b: string, t: T, step: string -> Result<Option<T>, FilterParseError>)
    requires step(a) == Ok(Some(t)) && step(b) == Ok(None)
    ensures Scan([a, b], step) == Ok([t])
  {
    var parts := [a, b];
    ScanAllContribute(parts[..1], [t], step);
    ScanStep(parts, 1, step);
    assert parts[..2] == parts;
  }

  /** Part `i` fails with `e` and every part before it succeeds. */
  ghost predicate FirstFailure<T>(
    parts: seq<string>, i: int, e: FilterParseError, step: string -> Result<Option<T>, FilterParseError>
  )
    requires 0 <= i < |parts|
  {
    && step(parts[i]) == Err(e)
    && forall j :: 0 <= j < i ==> step(parts[j]).Ok?
  }

  /** The scan fails with `e` exactly when `e` is the first failure in left-to-right order. */
  lemma {:induction false} ScanFirstError<T>(
    parts: seq<string>, e: FilterParseError, step: string -> Result<Option<T>, FilterParseError>
  )
    ensures Scan(parts, step) == Err(e) <==>
      exists i :: 0 <= i < |parts| && FirstFailure(parts, i, e, step)
    decreases |parts|
  {
    if parts != [] {
      var n := |parts| - 1;
      var init := parts[..n];
      ScanFirstError(init, e, step);
      ScanOk(init, step);
      assert forall i :: 0 <= i < n ==> init[i] == parts[i];
      forall i | 0 <= i < n
        ensures FirstFailure(init, i, e, step) <==> FirstFailure(parts, i, e, step)
      {
      }
      if Scan(parts, step) == Err(e) {
        if Scan(init, step).Ok? {
          assert FirstFailure(parts, n, e, step);
        }
      }
      if i :| 0 <= i < |parts| && FirstFailure(parts, i, e, step) {
        if i == n {
          assert Scan(init, step).Ok?;
        } else {
          assert FirstFailure(init, i, e, step);
        }
      }
    }
  }

  // ---------------------------------------------------------------------------
  // What the extractor guarantees

  /**
    The extractor fails exactly when some segment fails, and then with the error of the
    first failing segment; structural errors in segments for other fields count too.
  */
  lemma ExtractedErrors<V, T>(
    searchId: string, query: string, e: FilterParseError,
    parse: string -> Option<V>, decode: (string, V) -> Result<T, FilterParseError>
  )
    ensures Extracted(searchId, query, parse, decode).Ok? <==>
      forall i :: 0 <= i < |Segments(query)| ==> Segment(searchId, Segments(query)[i], parse, decode).Ok?
    ensures Extracted(searchId, query, parse, decode) == Err(e) <==>
      exists i :: 0 <= i < |Segments(query)| && FirstFailure(Segments(query), i, e, SegmentStep(searchId, parse, decode))
  {
    ScanOk(Segments(query), SegmentStep(searchId, parse, decode));
    ScanFirstError(Segments(query), e, SegmentStep(searchId, parse, decode));
  }

  /**
    A successful extraction is the segments addressed to the field, each value parsed and
    then decoded with its operator code (`eq` when the key has none), in the order they appear;
    there is at most one filter per segment.
  */
  lemma ExtractedDecoded<V, T>(
    searchId: string, query: string, ts: seq<T>,
    parse: string -> Option<V>, decode: (string, V) -> Result<T, FilterParseError>
  )
    requires Extracted(searchId, query, parse, decode) == Ok(ts)
    ensures DecodedFrom(Matches(searchId, Segments(query)), ts, parse, decode)
    ensures |ts| <= |Segments(query)|
  {
    ScanDecoded(searchId, Segments(query), ts, parse, decode);
    MatchesFromSegments(searchId, Segments(query));
  }

  lemma {:induction false} ScanDecoded<V, T>(
    searchId: string, parts: seq<string>, ts: seq<T>,
    parse: string -> Option<V>, decode: (string, V) -> Result<T, FilterParseError>
  )
    requires Scan(parts, SegmentStep(searchId, parse, decode)) == Ok(ts)
    ensures DecodedFrom(Matches(searchId, parts), ts, parse, decode)
    decreases |parts|
  {
    if parts != [] {
      var step := SegmentStep(searchId, parse, decode);
      var init, last := parts[..|parts| - 1], parts[|parts| - 1];
      var prefix := Scan(init, step).value;
      ScanDecoded(searchId, init, prefix, parse, decode);
      var ms := Matches(searchId, init);
      var seg := Segment(searchId, last, parse, decode);
      assert step(last) == seg;
      if seg.Ok? && seg.value.Some? {
        var pair := Locate(searchId, last).value.value;
        assert Matches(searchId, parts) == ms + [pair];
        assert ts == prefix + [seg.value.value];
        DecodedFromSnoc(ms, prefix, pair, seg.value.value, parse, decode);
      } else {
        assert Matches(searchId, parts) == ms;
      }
    }
  }

  /** One more raw pair that parses and decodes to `t` extends the decoded list by `t`. */
  lemma DecodedFromSnoc<V, T>(
    ms: seq<RawPair>, ts: seq<T>, pair: RawPair, t: T,
    parse: string -> Option<V>, decode: (string, V) -> Result<T, FilterParseError>
  )
    requires DecodedFrom(ms, ts, parse, decode)
    requires parse(pair.raw).Some? && decode(pair.op, parse(pair.raw).value) == Ok(t)
    ensures DecodedFrom(ms + [pair], ts + [t], parse, decode)
  {
    var ms', ts' := ms + [pair], ts + [t];
    forall i | 0 <= i < |ms'|
      ensures parse(ms'[i].raw).Some? && decode(ms'[i].op, parse(ms'[i].raw).value) == Ok(ts'[i])
    {
      if i < |ms| { assert ms'[i] == ms[i] && ts'[i] == ts[i]; }
    }
  }

  /** Every raw pair kept comes from a segment naming the field, so there are at most as many as segments. */
  lemma {:induction false} MatchesFromSegments(searchId: string, parts: seq<string>)
    ensures |Matches(searchId, parts)| <= |parts|
    ensures forall m :: m in Matches(searchId, parts) ==>
      exists i :: 0 <= i < |parts| && Locate(searchId, parts[i]) == Ok(Some(m))
    decreases |parts|
  {
    if parts != [] {
      var init := parts[..|parts| - 1];
      MatchesFromSegments(searchId, init);
      assert forall i :: 0 <= i < |init| ==> init[i] == parts[i];
    }
  }

  // ---------------------------------------------------------------------------
  // One segment in terms of its key and value

  /** A segment without `=` is a structural error, whichever field it names. */
  lemma SegmentWithoutEquals<V, T>(
    searchId: string, part: string,
    parse: string -> Option<V>, decode: (string, V) -> Result<T, FilterParseError>
  )
    requires '=' !in part
    ensures Segment(searchId, part, parse, decode) == Err(FilterStructure)
  {
  }

  /**
    The segment `key=raw`: only the first `=` splits, so `raw` may hold more of them.
    A key without a word character is a structural error; a key naming another field
    contributes nothing and its value is never parsed; for the searched field the value
    is parsed first (a failure is `Value` whatever the operator) and then decoded with the
    key's operator code, `eq` when it has none.
  */
  lemma SegmentOutcomes<V, T>(
    searchId: string, key: string, raw: string,
    parse: string -> Option<V>, decode: (string, V) -> Result<T, FilterParseError>
  )
    requires '=' !in key
    ensures var r := Segment(searchId, key + "=" + raw, parse, decode);
      && (!HasWordChar(key) ==> r == Err(FilterStructure))
      && (HasWordChar(key) && Match(key).value.name != searchId ==> r == Ok(None))
      && (HasWordChar(key) && Match(key).value.name == searchId && parse(raw).None? ==> r == Err(Value))
      && (HasWordChar(key) && Match(key).value.name == searchId && parse(raw).Some? ==>
            r == match decode(OperatorOrEq(Match(key).value.op), parse(raw).value)
                 case Ok(t) => Ok(Some(t))
                 case Err(e) => Err(e))
  {
    SplitOnceAt(key, raw, '=');
    MatchSpec(key);
  }

  /** Leaving the operator out is the same as writing `[eq]`: `age=10` and `age[eq]=10` agree. */
  lemma DefaultOperatorIsEq<V, T>(
    searchId: string, name: string, raw: string,
    parse: string -> Option<V>, decode: (string, V) -> Result<T, FilterParseError>
  )
    requires IsFieldName(name)
    ensures Segment(searchId, name + "=" + raw, parse, decode) ==
            Segment(searchId, FilterSegment(name, "eq", raw), parse, decode)
  {
    var key := name + "[" + "eq" + "]";
    MatchBareName(name);
    MatchNameWithOperator(name, "eq");
    KeyShape(name, "eq");
    assert IsWordChar(name[0]);
    assert '=' !in name by {
      forall j | 0 <= j < |name| ensures name[j] != '=' { assert IsWordChar(name[j]); }
    }
    SegmentOutcomes(searchId, name, raw, parse, decode);
    SegmentOutcomes(searchId, key, raw, parse, decode);
  }

  /** A well-formed segment for the searched field contributes its decoded value. */
  lemma SegmentContributes<V, T>(
    searchId: string, key: string, raw: string,
    parse: string -> Option<V>, decode: (string, V) -> Result<T, FilterParseError>, c: Captures, v: V, t: T)
    requires '=' !in key && Match(key) == Some(c) && c.name == searchId
    requires parse(raw) == Some(v) && decode(OperatorOrEq(c.op), v) == Ok(t)
    ensures Segment(searchId, key + "=" + raw, parse, decode) == Ok(Some(t))
  {
    SegmentOutcomes(searchId, key, raw, parse, decode);
    MatchSpec(key);
  }

  /** A query made of `&`-free pieces splits back into exactly those pieces. */
  lemma SegmentsOfJoin(parts: seq<string>)
    requires |parts| > 0
    requires forall i :: 0 <= i < |parts| ==> '&' !in parts[i]
    requires Join(parts, '&') != ""
    ensures Segments(Join(parts, '&')) == parts
  {
    SplitJoin(parts, '&');
  }

  /** A query without `&` is one segment. */
  lemma SegmentsOfOne(a: string)
    requires a != "" && '&' !in a
    ensures Segments(a) == [a]
  {
    SegmentsOfJoin([a]);
  }

  /** Two `&`-free pieces joined by `&` are two segments. */
  lemma SegmentsOfTwo(a: string, b: string)
    requires '&' !in a && '&' !in b
    ensures Segments(a + "&" + b) == [a, b]
  {
    assert Join([a, b], '&') == a + "&" + b by {
      assert Join([a], '&') == a;
    }
    SegmentsOfJoin([a, b]);
  }

  // ---------------------------------------------------------------------------
  // Well-formed segments `name[op]=raw`

  /** The query segment `name[op]=raw`. */
  function FilterSegment(name: string, op: string, raw: string): string {
    name + "[" + op + "]" + "=" + raw
  }

  /** A bracketed operator after a field name holds neither `=` nor `&`, and starts with a word character. */
  lemma KeyShape(name: string, op: string)
    requires IsFieldName(name) && IsOperatorCode(op)
    ensures var key := name + "[" + op + "]"; '=' !in key && '&' !in key && HasWordChar(key)
  {
    var key := name + "[" + op + "]";
    assert IsWordChar(key[0]);
    forall j | 0 <= j < |key| ensures key[j] != '=' && key[j] != '&' {
      if j < |name| { assert key[j] == name[j]; }
      else if j == |name| { }
      else if j < |name| + 1 + |op| { assert key[j] == op[j - |name| - 1]; }
    }
  }

  /** `name[op]=raw` holds no `&` when `raw` holds none. */
  lemma FilterSegmentWithoutAmpersand(name: string, op: string, raw: string)
    requires IsFieldName(name) && IsOperatorCode(op) && '&' !in raw
    ensures '&' !in FilterSegment(name, op, raw)
  {
    var key := name + "[" + op + "]";
    KeyShape(name, op);
    var s := key + "=" + raw;
    forall j | 0 <= j < |s| ensures s[j] != '&' {
      if j < |key| { assert s[j] == key[j]; }
      else if j > |key| { assert s[j] == raw[j - |key| - 1]; }
    }
  }

  /** `name=raw` holds no `&` when `raw` holds none. */
  lemma BareSegmentWithoutAmpersand(name: string, raw: string)
    requires IsFieldName(name) && '&' !in raw
    ensures '&' !in name + "=" + raw
  {
    var part := name + "=" + raw;
    forall j | 0 <= j < |part| ensures part[j] != '&' {
      if j < |name| { assert part[j] == name[j]; }
      else if j > |name| { assert part[j] == raw[j - |name| - 1]; }
    }
  }

  /** `name[op]=raw` for the searched field contributes the decoded value. */
  lemma FilterSegmentContributes<V, T>(
    name: string, op: string, raw: string,
    parse: string -> Option<V>, decode: (string, V) -> Result<T, FilterParseError>, v: V, t: T)
    requires IsFieldName(name) && IsOperatorCode(op)
    requires parse(raw) == Some(v) && decode(op, v) == Ok(t)
    ensures Segment(name, FilterSegment(name, op, raw), parse, decode) == Ok(Some(t))
  {
    var key := name + "[" + op + "]";
    MatchNameWithOperator(name, op);
    KeyShape(name, op);
    SegmentContributes(name, key, raw, parse, decode, Captures(name, Some(op), None), v, t);
  }

  /** `name[op]=raw` addressed to another field contributes nothing. */
  lemma OtherFieldSegment<V, T>(
    searchId: string, name: string, op: string, raw: string,
    parse: string -> Option<V>, decode: (string, V) -> Result<T, FilterParseError>
  )
    requires IsFieldName(name) && IsOperatorCode(op) && name != searchId
    ensures Segment(searchId, FilterSegment(name, op, raw), parse, decode) == Ok(None)
  {
    var key := name + "[" + op + "]";
    MatchNameWithOperator(name, op);
    KeyShape(name, op);
    SegmentOutcomes(searchId, key, raw, parse, decode);
  }

  /** `name[op]=raw` for the searched field with a value the parser refuses is a `Value` error. */
  lemma BadValueSegment<V, T>(
    name: string, op: string, raw: string,
    parse: string -> Option<V>, decode: (string, V) -> Result<T, FilterParseError>
  )
    requires IsFieldName(name) && IsOperatorCode(op) && parse(raw).None?
    ensures Segment(name, FilterSegment(name, op, raw), parse, decode) == Err(Value)
  {
    var key := name + "[" + op + "]";
    MatchNameWithOperator(name, op);
    KeyShape(name, op);
    SegmentOutcomes(name, key, raw, parse, decode);
  }

  // ---------------------------------------------------------------------------
  // Keeping only the first filter: `from_str(..)?.first().cloned()`

  /**
    `from_str(..)?.first().cloned()`: keeping the first filter fails exactly when the whole
    extraction does, so a bad later segment still fails it; otherwise it is the first segment
    addressed to the field, parsed and decoded, or nothing when no segment is addressed to
    the field.
  */
  function ExtractedFirst<V, T>(
    searchId: string, query: string,
    parse: string -> Option<V>, decode: (string, V) -> Result<T, FilterParseError>
  ): (r: Result<Option<T>, FilterParseError>)
    ensures forall e :: r == Err(e) <==> Extracted(searchId, query, parse, decode) == Err(e)
    ensures r == Ok(None) <==>
      Extracted(searchId, query, parse, decode).Ok? && Matches(searchId, Segments(query)) == []
    ensures r.Ok? && r.value.Some? ==>
      var m := Matches(searchId, Segments(query))[0];
      parse(m.raw).Some? && decode(m.op, parse(m.raw).value) == Ok(r.value.value)
  {
    match Extracted(searchId, query, parse, decode)
    case Err(e) => Err(e)
    case Ok(ts) =>
      ExtractedDecoded(searchId, query, ts, parse, decode);
      Ok(if |ts| == 0 then None else Some(ts[0]))
  }

  /** Of two segments for the field, the first one's filter is kept. */
  lemma ExtractedFirstOfTwo<V, T>(
    name: string, op1: string, raw1: string, op2: string, raw2: string,
    parse: string -> Option<V>, decode: (string, V) -> Result<T, FilterParseError>, v1: V, t1: T, v2: V, t2: T
  )
    requires IsFieldName(name) && IsOperatorCode(op1) && IsOperatorCode(op2) && '&' !in raw1 && '&' !in raw2
    requires parse(raw1) == Some(v1) && decode(op1, v1) == Ok(t1)
    requires parse(raw2) == Some(v2) && decode(op2, v2) == Ok(t2)
    ensures ExtractedFirst(name, FilterSegment(name, op1, raw1) + "&" + FilterSegment(name, op2, raw2), parse, decode) == Ok(Some(t1))
  {
    ExtractedTwoFilters(name, op1, raw1, op2, raw2, parse, decode, v1, t1, v2, t2);
  }

  // ---------------------------------------------------------------------------
  // Whole queries of one or two well-formed segments, for any value parser and decoder
  // (the shapes of the source's own tests)

  /** Two well-formed segments joined by `&` are the query's two segments. */
  lemma SegmentsOfFilterPair(name1: string, op1: string, raw1: string, name2: string, op2: string, raw2: string)
    requires IsFieldName(name1) && IsOperatorCode(op1) && '&' !in raw1
    requires IsFieldName(name2) && IsOperatorCode(op2) && '&' !in raw2
    ensures var a := FilterSegment(name1, op1, raw1);
            var b := FilterSegment(name2, op2, raw2);
            Segments(a + "&" + b) == [a, b]
  {
    FilterSegmentWithoutAmpersand(name1, op1, raw1);
    FilterSegmentWithoutAmpersand(name2, op2, raw2);
    SegmentsOfTwo(FilterSegment(name1, op1, raw1), FilterSegment(name2, op2, raw2));
  }

  /** The empty query yields no filters, whatever the field. */
  lemma ExtractedEmptyQuery<V, T>(
    searchId: string, parse: string -> Option<V>, decode: (string, V) -> Result<T, FilterParseError>
  )
    ensures Extracted(searchId, "", parse, decode) == Ok([])
  {
  }

  /** A one-segment query `key=raw` whose key names the field yields that segment's filter. */
  lemma ExtractedOneSegment<V, T>(
    name: string, key: string, raw: string,
    parse: string -> Option<V>, decode: (string, V) -> Result<T, FilterParseError>, c: Captures, v: V, t: T
  )
    requires '=' !in key && '&' !in key && '&' !in raw
    requires Match(key) == Some(c) && c.name == name
    requires parse(raw) == Some(v) && decode(OperatorOrEq(c.op), v) == Ok(t)
    ensures Extracted(name, key + "=" + raw, parse, decode) == Ok([t])
  {
    var part := key + "=" + raw;
    SegmentsOfOne(part);
    SegmentContributes(name, key, raw, parse, decode, c, v, t);
    ScanAllContribute([part], [t], SegmentStep(name, parse, decode));
  }

  /** The one-segment query `name[op]=raw` yields its decoded filter. */
  lemma ExtractedSingle<V, T>(
    name: string, op: string, raw: string,
    parse: string -> Option<V>, decode: (string, V) -> Result<T, FilterParseError>, v: V, t: T
  )
    requires IsFieldName(name) && IsOperatorCode(op) && '&' !in raw
    requires parse(raw) == Some(v) && decode(op, v) == Ok(t)
    ensures Extracted(name, FilterSegment(name, op, raw), parse, decode) == Ok([t])
  {
    var part := FilterSegment(name, op, raw);
    FilterSegmentWithoutAmpersand(name, op, raw);
    SegmentsOfOne(part);
    FilterSegmentContributes(name, op, raw, parse, decode, v, t);
    ScanAllContribute([part], [t], SegmentStep(name, parse, decode));
  }

  /** A key without an operator reads as `eq`: the query `name=raw` yields the filter decoded under `eq`. */
  lemma ExtractedDefaultOperator<V, T>(
    name: string, raw: string,
    parse: string -> Option<V>, decode: (string, V) -> Result<T, FilterParseError>, v: V, t: T
  )
    requires IsFieldName(name) && '&' !in raw
    requires parse(raw) == Some(v) && decode("eq", v) == Ok(t)
    ensures Extracted(name, name + "=" + raw, parse, decode) == Ok([t])
  {
    var part := name + "=" + raw;
    BareSegmentWithoutAmpersand(name, raw);
    SegmentsOfOne(part);
    FilterSegmentContributes(name, "eq", raw, parse, decode, v, t);
    DefaultOperatorIsEq(name, name, raw, parse, decode);
    ScanAllContribute([part], [t], SegmentStep(name, parse, decode));
  }

  /** Two segments for the searched field yield both filters, in query order (`age[eq]=10&age[lt]=20`). */
  lemma ExtractedTwoFilters<V, T>(
    name: string, op1: string, raw1: string, op2: string, raw2: string,
    parse: string -> Option<V>, decode: (string, V) -> Result<T, FilterParseError>, v1: V, t1: T, v2: V, t2: T
  )
    requires IsFieldName(name) && IsOperatorCode(op1) && IsOperatorCode(op2) && '&' !in raw1 && '&' !in raw2
    requires parse(raw1) == Some(v1) && decode(op1, v1) == Ok(t1)
    requires parse(raw2) == Some(v2) && decode(op2, v2) == Ok(t2)
    ensures Extracted(name, FilterSegment(name, op1, raw1) + "&" + FilterSegment(name, op2, raw2), parse, decode) == Ok([t1, t2])
  {
    var a := FilterSegment(name, op1, raw1);
    var b := FilterSegment(name, op2, raw2);
    SegmentsOfFilterPair(name, op1, raw1, name, op2, raw2);
    FilterSegmentContributes(name, op1, raw1, parse, decode, v1, t1);
    FilterSegmentContributes(name, op2, raw2, parse, decode, v2, t2);
    ScanBothContribute(a, b, t1, t2, SegmentStep(name, parse, decode));
  }

  /**
    A segment for another field is skipped without parsing or decoding its value
    (`age[eq]=10&height[eq]=20`).
  */
  lemma ExtractedIgnoresOtherFields<V, T>(
    name: string, op: string, raw: string, other: string, otherOp: string, otherRaw: string,
    parse: string -> Option<V>, decode: (string, V) -> Result<T, FilterParseError>, v: V, t: T
  )
    requires IsFieldName(name) && IsOperatorCode(op) && '&' !in raw
    requires IsFieldName(other) && IsOperatorCode(otherOp) && '&' !in otherRaw && other != name
    requires parse(raw) == Some(v) && decode(op, v) == Ok(t)
    ensures Extracted(name, FilterSegment(name, op, raw) + "&" + FilterSegment(other, otherOp, otherRaw), parse, decode) == Ok([t])
  {
    var a := FilterSegment(name, op, raw);
    var b := FilterSegment(other, otherOp, otherRaw);
    SegmentsOfFilterPair(name, op, raw, other, otherOp, otherRaw);
    FilterSegmentContributes(name, op, raw, parse, decode, v, t);
    OtherFieldSegment(name, other, otherOp, otherRaw, parse, decode);
    ScanContributeThenSkip(a, b, t, SegmentStep(name, parse, decode));
  }

  /** A segment without `=` fails the whole query with `FilterStructure` (the query `age`). */
  lemma ExtractedWithoutEquals<V, T>(
    searchId: string, part: string,
    parse: string -> Option<V>, decode: (string, V) -> Result<T, FilterParseError>
  )
    requires part != "" && '=' !in part && '&' !in part
    ensures Extracted(searchId, part, parse, decode) == Err(FilterStructure)
  {
    SegmentsOfOne(part);
    SegmentWithoutEquals(searchId, part, parse, decode);
    ScanStep([part], 0, SegmentStep(searchId, parse, decode));
    assert [part][..1] == [part];
  }

  /** A value the parser refuses fails the whole query with `Value`, before any decoding (`age[eq]=notanumber`). */
  lemma ExtractedBadValue<V, T>(
    name: string, op: string, raw: string,
    parse: string -> Option<V>, decode: (string, V) -> Result<T, FilterParseError>
  )
    requires IsFieldName(name) && IsOperatorCode(op) && '&' !in raw && parse(raw).None?
    ensures Extracted(name, FilterSegment(name, op, raw), parse, decode) == Err(Value)
  {
    var part := FilterSegment(name, op, raw);
    FilterSegmentWithoutAmpersand(name, op, raw);
    SegmentsOfOne(part);
    BadValueSegment(name, op, raw, parse, decode);
    ScanStep([part], 0, SegmentStep(name, parse, decode));
    assert [part][..1] == [part];
  }

  /** A segment for another field alone yields nothing: its value is neither parsed nor decoded. */
  lemma ExtractedOtherField<V, T>(
    searchId: string, name: string, op: string, raw: string,
    parse: string -> Option<V>, decode: (string, V) -> Result<T, FilterParseError>
  )
    requires IsFieldName(name) && IsOperatorCode(op) && '&' !in raw && name != searchId
    ensures Extracted(searchId, FilterSegment(name, op, raw), parse, decode) == Ok([])
  {
    var part := FilterSegment(name, op, raw);
    FilterSegmentWithoutAmpersand(name, op, raw);
    SegmentsOfOne(part);
    OtherFieldSegment(searchId, name, op, raw, parse, decode);
    ScanStep([part], 0, SegmentStep(searchId, parse, decode));
    assert [part][..1] == [part];
  }

  /** At the level of a whole query too, `name=raw` and `name[eq]=raw` are the same query. */
  lemma ExtractedBareIsEq<V, T>(
    searchId: string, name: string, raw: string,
    parse: string -> Option<V>, decode: (string, V) -> Result<T, FilterParseError>
  )
    requires IsFieldName(name) && '&' !in raw
    ensures Extracted(searchId, name + "=" + raw, parse, decode) ==
            Extracted(searchId, FilterSegment(name, "eq", raw), parse, decode)
  {
    BareSegmentWithoutAmpersand(name, raw);
    FilterSegmentWithoutAmpersand(name, "eq", raw);
    ExtractedOfOne(searchId, name + "=" + raw, parse, decode);
    ExtractedOfOne(searchId, FilterSegment(name, "eq", raw), parse, decode);
    DefaultOperatorIsEq(searchId, name, raw, parse, decode);
  }

  /** A query of one segment extracts exactly what that segment contributes. */
  lemma ExtractedOfOne<V, T>(
    searchId: string, part: string,
    parse: string -> Option<V>, decode: (string, V) -> Result<T, FilterParseError>
  )
    requires part != "" && '&' !in part
    ensures Extracted(searchId, part, parse, decode) ==
      match Segment(searchId, part, parse, decode)
      case Err(e) => Err(e)
      case Ok(None) => Ok([])
      case Ok(Some(t)) => Ok([t])
  {
    var step := SegmentStep(searchId, parse, decode);
    SegmentsOfOne(part);
    ScanStep([part], 0, step);
    assert [part][..1] == [part] && [part][..0] == [];
    match Segment(searchId, part, parse, decode)
    case Ok(Some(t)) => assert [] + [t] == [t];
    case _ =>
  }

  /** A code the decoder refuses, on a value that parses, fails the whole query with the decoder's error. */
  lemma ExtractedDecodeFails<V, T>(
    name: string, op: string, raw: string,
    parse: string -> Option<V>, decode: (string, V) -> Result<T, FilterParseError>, v: V, e: FilterParseError
  )
    requires IsFieldName(name) && IsOperatorCode(op) && '&' !in raw
    requires parse(raw) == Some(v) && decode(op, v) == Err(e)
    ensures Extracted(name, FilterSegment(name, op, raw), parse, decode) == Err(e)
  {
    var part := FilterSegment(name, op, raw);
    var key := name + "[" + op + "]";
    FilterSegmentWithoutAmpersand(name, op, raw);
    SegmentsOfOne(part);
    MatchNameWithOperator(name, op);
    KeyShape(name, op);
    SegmentOutcomes(name, key, raw, parse, decode);
    ScanStep([part], 0, SegmentStep(name, parse, decode));
    assert [part][..1] == [part];
  }

  /**
    A refused value on a later segment for the field fails the whole query, even though an
    earlier segment decoded: the error is raised before any caller keeps only the first filter.
  */
  lemma ExtractedLaterBadValue<V, T>(
    name: string, op1: string, raw1: string, op2: string, raw2: string,
    parse: string -> Option<V>, decode: (string, V) -> Result<T, FilterParseError>, v1: V, t1: T
  )
    requires IsFieldName(name) && IsOperatorCode(op1) && IsOperatorCode(op2) && '&' !in raw1 && '&' !in raw2
    requires parse(raw1) == Some(v1) && decode(op1, v1) == Ok(t1) && parse(raw2).None?
    ensures Extracted(name, FilterSegment(name, op1, raw1) + "&" + FilterSegment(name, op2, raw2), parse, decode) == Err(Value)
  {
    var a := FilterSegment(name, op1, raw1);
    var b := FilterSegment(name, op2, raw2);
    var step := SegmentStep(name, parse, decode);
    SegmentsOfFilterPair(name, op1, raw1, name, op2, raw2);
    FilterSegmentContributes(name, op1, raw1, parse, decode, v1, t1);
    BadValueSegment(name, op2, raw2, parse, decode);
    var parts := [a, b];
    ScanAllContribute(parts[..1], [t1], step);
    ScanStep(parts, 1, step);
    assert parts[..2] == parts;
  }

  // ---------------------------------------------------------------------------
  // Well-formed queries as terms: the extractor agrees with a reading that needs no
  // string matching

  /** A well-formed segment `field=raw` or `field[op]=raw`, before it is written out. */
  datatype Term = Term(field: string, op: Option<string>, raw: string)

  predicate WellFormedTerm(t: Term) {
    IsFieldName(t.field) && (t.op.Some? ==> IsOperatorCode(t.op.value)) && '&' !in t.raw
  }

  /** The segment a term is written as. */
  function Render(t: Term): string {
    if t.op.None? then t.field + "=" + t.raw else FilterSegment(t.field, t.op.value, t.raw)
  }

  /** The query the terms are written as, in order and separated by `&`. */
  function RenderQuery(ts: seq<Term>): string
    requires |ts| > 0
  {
    Join(seq(|ts|, i requires 0 <= i < |ts| => Render(ts[i])), '&')
  }

  /**
    What a term contributes when the field `searchId` is looked for: nothing for another
    field, else its value parsed and then decoded under its operator code, `eq` by default.
  */
  function TermContribution<V, T>(
    searchId: string, t: Term,
    parse: string -> Option<V>, decode: (string, V) -> Result<T, FilterParseError>
  ): Result<Option<T>, FilterParseError> {
    if t.field != searchId then Ok(None)
    else
      match parse(t.raw)
      case None => Err(Value)
      case Some(v) =>
        match decode(OperatorOrEq(t.op), v)
        case Err(e) => Err(e)
        case Ok(f) => Ok(Some(f))
  }

  /** `TermContribution` for a fixed field, parser and decoder. */
  function TermStep<V, T>(
    searchId: string, parse: string -> Option<V>, decode: (string, V) -> Result<T, FilterParseError>
  ): Term -> Result<Option<T>, FilterParseError> {
    t => TermContribution(searchId, t, parse, decode)
  }

  /** The filters a sequence of terms yields for `searchId`, scanned as the extractor scans segments. */
  function TermsExtracted<V, T>(
    searchId: string, ts: seq<Term>,
    parse: string -> Option<V>, decode: (string, V) -> Result<T, FilterParseError>
  ): Result<seq<T>, FilterParseError> {
    Scan(ts, TermStep(searchId, parse, decode))
  }

  /** Two scans whose steps agree part by part give the same result. */
  lemma {:induction false} ScanPointwise<P, Q, T>(
    ps: seq<P>, qs: seq<Q>,
    step1: P -> Result<Option<T>, FilterParseError>, step2: Q -> Result<Option<T>, FilterParseError>
  )
    requires |ps| == |qs|
    requires forall i :: 0 <= i < |ps| ==> step1(ps[i]) == step2(qs[i])
    ensures Scan(ps, step1) == Scan(qs, step2)
    decreases |ps|
  {
    if ps != [] {
      var n := |ps| - 1;
      assert forall i :: 0 <= i < n ==> ps[..n][i] == ps[i] && qs[..n][i] == qs[i];
      ScanPointwise(ps[..n], qs[..n], step1, step2);
    }
  }

  /** A rendered well-formed term is read by the segment scan exactly as the term says. */
  lemma SegmentOfTerm<V, T>(
    searchId: string, t: Term,
    parse: string -> Option<V>, decode: (string, V) -> Result<T, FilterParseError>
  )
    requires WellFormedTerm(t)
    ensures Segment(searchId, Render(t), parse, decode) == TermContribution(searchId, t, parse, decode)
  {
    var op := OperatorOrEq(t.op);
    SegmentOfFilterSegment(searchId, t, op, parse, decode);
    if t.op.None? {
      DefaultOperatorIsEq(searchId, t.field, t.raw, parse, decode);
    }
  }

  /** `name[op]=raw` contributes what a term on `name` and `raw` under that operator code says. */
  lemma SegmentOfFilterSegment<V, T>(
    searchId: string, t: Term, op: string,
    parse: string -> Option<V>, decode: (string, V) -> Result<T, FilterParseError>
  )
    requires IsFieldName(t.field) && IsOperatorCode(op) && op == OperatorOrEq(t.op)
    ensures Segment(searchId, FilterSegment(t.field, op, t.raw), parse, decode) == TermContribution(searchId, t, parse, decode)
  {
    MatchNameWithOperator(t.field, op);
    KeyShape(t.field, op);
    SegmentOutcomes(searchId, t.field + "[" + op + "]", t.raw, parse, decode);
  }

  /** A rendered well-formed term holds no `&` and is not empty. */
  lemma RenderShape(t: Term)
    requires WellFormedTerm(t)
    ensures '&' !in Render(t) && Render(t) != ""
  {
    if t.op.None? {
      BareSegmentWithoutAmpersand(t.field, t.raw);
    } else {
      FilterSegmentWithoutAmpersand(t.field, t.op.value, t.raw);
    }
  }

  /**
    On a query written from well-formed terms, the extractor yields what the terms
    themselves say, for every field, parser and decoder: the string matching adds nothing
    and loses nothing.
  */
  lemma ExtractedRendered<V, T>(
    searchId: string, ts: seq<Term>,
    parse: string -> Option<V>, decode: (string, V) -> Result<T, FilterParseError>
  )
    requires |ts| > 0 && forall i :: 0 <= i < |ts| ==> WellFormedTerm(ts[i])
    ensures Extracted(searchId, RenderQuery(ts), parse, decode) == TermsExtracted(searchId, ts, parse, decode)
  {
    var parts := seq(|ts|, i requires 0 <= i < |ts| => Render(ts[i]));
    forall i | 0 <= i < |ts|
      ensures '&' !in parts[i] && parts[i] != ""
      ensures Segment(searchId, parts[i], parse, decode) == TermContribution(searchId, ts[i], parse, decode)
    {
      RenderShape(ts[i]);
      SegmentOfTerm(searchId, ts[i], parse, decode);
    }
    assert Join(parts, '&') != "" by {
      assert |Join(parts, '&')| >= |parts[0]|;
    }
    SegmentsOfJoin(parts);
    ScanPointwise(parts, ts, SegmentStep(searchId, parse, decode), TermStep(searchId, parse, decode));
  }

  /** A rendered query of well-formed terms yields, for any field, the filters its terms contribute, in order. */
  lemma ExtractedPicks<V, T>(
    searchId: string, ts: seq<Term>,
    parse: string -> Option<V>, decode: (string, V) -> Result<T, FilterParseError>, picks: seq<Option<T>>
  )
    requires |ts| > 0 && forall i :: 0 <= i < |ts| ==> WellFormedTerm(ts[i])
    requires |picks| == |ts|
    requires forall i :: 0 <= i < |ts| ==> TermContribution(searchId, ts[i], parse, decode) == Ok(picks[i])
    ensures Extracted(searchId, RenderQuery(ts), parse, decode) == Ok(Present(picks))
  {
    ExtractedRendered(searchId, ts, parse, decode);
    ScanPresent(ts, picks, TermStep(searchId, parse, decode));
  }
}
