/**
  The token grammar of a query key, the pattern `(\w+)(\[([a-z]+)])?(\[(\d+)])?`
  run unanchored with leftmost-first semantics (src/regex.rs). Word characters are
  the ASCII ones, `[A-Za-z0-9_]`.

  `Captured` describes declaratively what the pattern captures; `Match` is the
  matcher, and `MatchCharacterisation` shows the two agree on every key.
*/
module QueryRegex {
  import opened Wrappers

  predicate IsWordChar(c: char) {
    ('a' <= c <= 'z') || ('A' <= c <= 'Z') || ('0' <= c <= '9') || c == '_'
  }

  predicate IsLowerChar(c: char) { 'a' <= c <= 'z' }

  predicate IsDigitChar(c: char) { '0' <= c <= '9' }

  /** Capture groups 1, 3 and 5 of the pattern: the field name, the operator code, the index. */
  datatype Captures = Captures(name: string, op: Option<string>, index: Option<string>)

  // ---------------------------------------------------------------------------
  // What the pattern captures, stated without reference to the matcher

  /** `s[i..]` starts with `[`, a non-empty run of `isBodyChar` characters equal to `body`, and `]`. */
  ghost predicate Bracketed(s: string, i: int, body: string, isBodyChar: char -> bool) {
    && 0 <= i
    && i + |body| + 2 <= |s|
    && |body| > 0
    && s[i] == '['
    && s[i + 1 .. i + 1 + |body|] == body
    && s[i + 1 + |body|] == ']'
    && forall j :: 0 <= j < |body| ==> isBodyChar(body[j])
  }

  /** An optional bracket group at `i`: present exactly when some bracketed body is there. */
  ghost predicate OptionalGroup(s: string, i: int, g: Option<string>, isBodyChar: char -> bool) {
    match g
    case Some(body) => Bracketed(s, i, body, isBodyChar)
    case None => forall body: string :: !Bracketed(s, i, body, isBodyChar)
  }

  /** Number of key characters an optional group consumes. */
  function GroupWidth(g: Option<string>): nat {
    if g.Some? then |g.value| + 2 else 0
  }

  /** `s[start..end]` is the first maximal run of word characters in `s`. */
  ghost predicate FirstWordRun(s: string, start: int, end: int) {
    && 0 <= start < end <= |s|
    && (forall j :: 0 <= j < start ==> !IsWordChar(s[j]))
    && (forall j :: start <= j < end ==> IsWordChar(s[j]))
    && (end == |s| || !IsWordChar(s[end]))
  }

  /** The leftmost-first match of the pattern starts at `p` and captures `c`. */
  ghost predicate CapturedAt(key: string, p: int, c: Captures) {
    var e := p + |c.name|;
    && FirstWordRun(key, p, e)
    && key[p..e] == c.name
    && OptionalGroup(key, e, c.op, IsLowerChar)
    && OptionalGroup(key, e + GroupWidth(c.op), c.index, IsDigitChar)
  }

  ghost predicate Captured(key: string, c: Captures) {
    exists p :: CapturedAt(key, p, c)
  }

  ghost predicate HasWordChar(key: string) {
    exists j :: 0 <= j < |key| && IsWordChar(key[j])
  }

  // ---------------------------------------------------------------------------
  // The matcher

  /** The first index at or after `i` holding a word character, or `|s|`. */
  function FirstWordIndex(s: string, i: nat): (k: nat)
    requires i <= |s|
    ensures i <= k <= |s|
    ensures forall j :: i <= j < k ==> !IsWordChar(s[j])
    ensures k < |s| ==> IsWordChar(s[k])
    decreases |s| - i
  {
    if i == |s| || IsWordChar(s[i]) then i else FirstWordIndex(s, i + 1)
  }

  /** The end of the maximal run of `inRun` characters that starts at `i`. */
  function RunEnd(s: string, i: nat, inRun: char -> bool): (k: nat)
    requires i <= |s|
    ensures i <= k <= |s|
    ensures forall j :: i <= j < k ==> inRun(s[j])
    ensures k == |s| || !inRun(s[k])
    decreases |s| - i
  {
    if i == |s| || !inRun(s[i]) then i else RunEnd(s, i + 1, inRun)
  }

  /** The bracket group `\[(class+)]` at `i`, if the key has one there. */
  function Group(s: string, i: nat, isBodyChar: char -> bool): (r: Option<string>)
    requires i <= |s|
    ensures r.Some? ==> Bracketed(s, i, r.value, isBodyChar)
  {
    if i < |s| && s[i] == '[' then
      var e := RunEnd(s, i + 1, isBodyChar);
      if i + 1 < e < |s| && s[e] == ']' then Some(s[i + 1 .. e]) else None
    else
      None
  }

  /** `Group` finds the bracketed body at `i` when there is one, and reports none otherwise. */
  lemma GroupSpec(s: string, i: nat, isBodyChar: char -> bool)
    requires i <= |s|
    requires !isBodyChar(']')
    ensures OptionalGroup(s, i, Group(s, i, isBodyChar), isBodyChar)
  {
    if i < |s| && s[i] == '[' {
      var e := RunEnd(s, i + 1, isBodyChar);
      if !(i + 1 < e < |s| && s[e] == ']') {
        NoGroupAfterRun(s, i, e, isBodyChar);
      }
    }
  }

  /** When the run after `[` is empty or not closed by `]`, no bracketed body exists at `i`. */
  lemma NoGroupAfterRun(s: string, i: nat, e: nat, isBodyChar: char -> bool)
    requires i < |s| && s[i] == '[' && i + 1 <= e <= |s|
    requires forall j :: i + 1 <= j < e ==> isBodyChar(s[j])
    requires e == |s| || !isBodyChar(s[e])
    requires !isBodyChar(']')
    requires !(i + 1 < e < |s| && s[e] == ']')
    ensures forall body: string :: !Bracketed(s, i, body, isBodyChar)
  {
    forall body: string | Bracketed(s, i, body, isBodyChar)
      ensures false
    {
      var close := i + 1 + |body|;
      forall j | i + 1 <= j < close ensures isBodyChar(s[j]) {
        assert s[j] == body[j - i - 1];
      }
    }
  }

  /**
    Runs the pattern over `key`; `None` is the regex finding no match at all, which happens
    exactly when the key has no word character. A match always captures a field name, and
    an operator code and an index of the pattern's character classes.
  */
  function Match(key: string): (r: Option<Captures>)
    ensures r.None? <==> !HasWordChar(key)
    ensures r.Some? ==> IsFieldName(r.value.name)
    ensures r.Some? && r.value.op.Some? ==> IsOperatorCode(r.value.op.value)
    ensures r.Some? && r.value.index.Some? ==> IsIndexDigits(r.value.index.value)
  {
    var p := FirstWordIndex(key, 0);
    if p == |key| then
      None
    else
      assert IsWordChar(key[p]);
      var e := RunEnd(key, p, IsWordChar);
      var op := Group(key, e, IsLowerChar);
      Some(Captures(key[p..e], op, Group(key, e + GroupWidth(op), IsDigitChar)))
  }

  /** The matcher fails only on keys without a word character, and otherwise captures what the pattern does. */
  lemma MatchSpec(key: string)
    ensures Match(key).None? <==> !HasWordChar(key)
    ensures Match(key).Some? ==> CapturedAt(key, FirstWordIndex(key, 0), Match(key).value)
  {
    var p := FirstWordIndex(key, 0);
    if p < |key| {
      var e := RunEnd(key, p, IsWordChar);
      var op := Group(key, e, IsLowerChar);
      GroupSpec(key, e, IsLowerChar);
      var c := Captures(key[p..e], op, Group(key, e + GroupWidth(op), IsDigitChar));
      CapturesOfRun(key, p, e, op, c.index);
      assert Match(key) == Some(c);
    }
  }

  /** The name run, the operator group and the index group the matcher reads form the pattern's capture. */
  lemma CapturesOfRun(key: string, p: nat, e: nat, op: Option<string>, index: Option<string>)
    requires p < |key| && p == FirstWordIndex(key, 0) && e == RunEnd(key, p, IsWordChar)
    requires OptionalGroup(key, e, op, IsLowerChar) && e + GroupWidth(op) <= |key|
    requires index == Group(key, e + GroupWidth(op), IsDigitChar)
    ensures CapturedAt(key, p, Captures(key[p..e], op, index))
  {
    GroupSpec(key, e + GroupWidth(op), IsDigitChar);
    assert FirstWordRun(key, p, e);
    CapturedAtParts(key, p, e, Captures(key[p..e], op, index));
  }

  /** `CapturedAt` assembled from its parts, with the end of the name given. */
  lemma CapturedAtParts(key: string, p: int, e: int, c: Captures)
    requires e == p + |c.name| && FirstWordRun(key, p, e) && key[p..e] == c.name
    requires OptionalGroup(key, e, c.op, IsLowerChar)
    requires OptionalGroup(key, e + GroupWidth(c.op), c.index, IsDigitChar)
    ensures CapturedAt(key, p, c)
  {
  }

  // ---------------------------------------------------------------------------
  // Properties

  /** At most one bracketed body sits at a given position. */
  lemma {:induction false} BracketedUnique(s: string, i: int, b1: string, b2: string, isBodyChar: char -> bool)
    requires !isBodyChar(']')
    requires Bracketed(s, i, b1, isBodyChar) && Bracketed(s, i, b2, isBodyChar)
    ensures b1 == b2
  {
    assert forall j :: 0 <= j < |b1| ==> s[i + 1 + j] == b1[j];
    assert forall j :: 0 <= j < |b2| ==> s[i + 1 + j] == b2[j];
  }

  /** The pattern's captures are determined by the key: at most one capture satisfies the description. */
  lemma CapturedUnique(key: string, p1: int, c1: Captures, p2: int, c2: Captures)
    requires CapturedAt(key, p1, c1) && CapturedAt(key, p2, c2)
    ensures p1 == p2 && c1 == c2
  {
    assert IsWordChar(key[p1]) && IsWordChar(key[p2]);
    assert p1 == p2;
    var e1, e2 := p1 + |c1.name|, p2 + |c2.name|;
    assert e1 == e2;
    assert c1.name == c2.name;
    if c1.op.Some? && c2.op.Some? {
      BracketedUnique(key, e1, c1.op.value, c2.op.value, IsLowerChar);
    }
    assert c1.op == c2.op;
    var f := e1 + GroupWidth(c1.op);
    if c1.index.Some? && c2.index.Some? {
      BracketedUnique(key, f, c1.index.value, c2.index.value, IsDigitChar);
    }
  }

  /**
    The matcher computes exactly what the pattern captures: it succeeds with `c`
    if and only if `c` is the capture, and fails only on keys without a word character.
  */
  lemma MatchCharacterisation(key: string, c: Captures)
    ensures Match(key) == Some(c) <==> Captured(key, c)
    ensures Match(key).None? <==> !HasWordChar(key)
  {
    MatchSpec(key);
    if Captured(key, c) {
      var p :| CapturedAt(key, p, c);
      assert HasWordChar(key) by { assert IsWordChar(key[p]); }
      CapturedUnique(key, p, c, FirstWordIndex(key, 0), Match(key).value);
    }
  }

  /** A field name the pattern captures whole: one or more word characters. */
  predicate IsFieldName(s: string) {
    |s| > 0 && forall j :: 0 <= j < |s| ==> IsWordChar(s[j])
  }

  /** An operator code the pattern can capture: one or more lower-case letters. */
  predicate IsOperatorCode(s: string) {
    |s| > 0 && forall j :: 0 <= j < |s| ==> IsLowerChar(s[j])
  }

  /** An index the pattern can capture: one or more decimal digits. */
  predicate IsIndexDigits(s: string) {
    |s| > 0 && forall j :: 0 <= j < |s| ==> IsDigitChar(s[j])
  }

  /** A key made only of word characters is all name: no operator, no index (`age`). */
  lemma MatchBareName(name: string)
    requires IsFieldName(name)
    ensures Match(name) == Some(Captures(name, None, None))
  {
    var c := Captures(name, None, None);
    assert name[0..|name|] == name;
    assert CapturedAt(name, 0, c);
    MatchCharacterisation(name, c);
  }

  /** `name[op]` captures the name and the operator code (`age[eq]`). */
  lemma MatchNameWithOperator(name: string, op: string)
    requires IsFieldName(name) && IsOperatorCode(op)
    ensures Match(name + "[" + op + "]") == Some(Captures(name, Some(op), None))
  {
    var key := name + "[" + op + "]";
    var c := Captures(name, Some(op), None);
    var e := |name|;
    assert key[0..e] == name;
    assert key[e + 1 .. e + 1 + |op|] == op;
    assert Bracketed(key, e, op, IsLowerChar);
    assert FirstWordRun(key, 0, e);
    assert CapturedAt(key, 0, c);
    MatchCharacterisation(key, c);
  }

  /** `name[op][index]` captures all three groups (`age[eq][10]`). */
  lemma MatchNameWithOperatorAndIndex(name: string, op: string, index: string)
    requires IsFieldName(name) && IsOperatorCode(op) && IsIndexDigits(index)
    ensures Match(name + "[" + op + "]" + "[" + index + "]") == Some(Captures(name, Some(op), Some(index)))
  {
    var key := name + "[" + op + "]" + "[" + index + "]";
    var c := Captures(name, Some(op), Some(index));
    var e := |name|;
    var f := e + |op| + 2;
    assert key[0..e] == name;
    assert key[e + 1 .. e + 1 + |op|] == op;
    assert key[f + 1 .. f + 1 + |index|] == index;
    assert Bracketed(key, e, op, IsLowerChar);
    assert Bracketed(key, f, index, IsDigitChar);
    assert FirstWordRun(key, 0, e);
    assert CapturedAt(key, 0, c);
    MatchCharacterisation(key, c);
  }

  /** The index group does not need the operator group: `name[index]` captures no operator but an index (`age[10]`). */
  lemma MatchNameWithIndexOnly(name: string, index: string)
    requires IsFieldName(name) && IsIndexDigits(index)
    ensures Match(name + "[" + index + "]") == Some(Captures(name, None, Some(index)))
  {
    var key := name + "[" + index + "]";
    var c := Captures(name, None, Some(index));
    var e := |name|;
    assert key[0..e] == name;
    assert key[e + 1 .. e + 1 + |index|] == index;
    assert Bracketed(key, e, index, IsDigitChar);
    var first := key[e + 1];
    assert first == index[0];
    assert forall body: string :: Bracketed(key, e, body, IsLowerChar) ==> IsLowerChar(first);
    assert FirstWordRun(key, 0, e);
    assert CapturedAt(key, 0, c);
    MatchCharacterisation(key, c);
  }

  /**
    A bracket whose run of lower-case letters is not closed by `]`, or is empty, holds no
    operator, and no index unless it starts with a digit, so the key captures its name
    alone: `age[EQ]` (upper-case codes are not operators), `age[eq` and `age[` (no closing
    bracket), `age[]` (an empty code) and `name[not_like]` (the operator class has no `_`).
  */
  lemma MatchUnclosedOperator(name: string, letters: string, rest: string)
    requires IsFieldName(name)
    requires forall j :: 0 <= j < |letters| ==> IsLowerChar(letters[j])
    requires rest == [] || (!IsLowerChar(rest[0]) && (rest[0] != ']' || |letters| == 0))
    requires |letters| > 0 || rest == [] || !IsDigitChar(rest[0])
    ensures Match(name + "[" + letters + rest) == Some(Captures(name, None, None))
  {
    var key := name + "[" + letters + rest;
    var c := Captures(name, None, None);
    var e := |name|;
    var close := e + 1 + |letters|;
    assert key[0..e] == name;
    assert close < |key| ==> key[close] == rest[0];
    assert forall j :: e + 1 <= j < close ==> key[j] == letters[j - e - 1];
    NoGroupAfterRun(key, e, close, IsLowerChar);
    assert e + 1 < |key| ==> key[e + 1] == if |letters| > 0 then letters[0] else rest[0];
    NoGroupAfterRun(key, e, e + 1, IsDigitChar);
    assert FirstWordRun(key, 0, e);
    assert CapturedAt(key, 0, c);
    MatchCharacterisation(key, c);
  }

  /**
    The name stops at the first character that is not a word character; when that is not
    `[`, nothing more is captured (`x.y[gt]` captures the name `x` only).
  */
  lemma MatchNameThenOther(name: string, rest: string)
    requires IsFieldName(name) && |rest| > 0 && !IsWordChar(rest[0]) && rest[0] != '['
    ensures Match(name + rest) == Some(Captures(name, None, None))
  {
    var key := name + rest;
    var c := Captures(name, None, None);
    var e := |name|;
    assert key[0..e] == name;
    assert key[e] == rest[0];
    assert FirstWordRun(key, 0, e);
    assert CapturedAt(key, 0, c);
    MatchCharacterisation(key, c);
  }

  /** Leading characters that are not word characters are skipped (`.age` captures `age`). */
  lemma MatchSkipsLeadingNonWord(lead: string, name: string)
    requires forall j :: 0 <= j < |lead| ==> !IsWordChar(lead[j])
    requires IsFieldName(name)
    ensures Match(lead + name) == Some(Captures(name, None, None))
  {
    var key := lead + name;
    var c := Captures(name, None, None);
    var p := |lead|;
    assert key[p..p + |name|] == name;
    assert FirstWordRun(key, p, p + |name|);
    assert CapturedAt(key, p, c);
    MatchCharacterisation(key, c);
  }

  /** A key without any word character is not matched at all. */
  lemma MatchWithoutWordChar(key: string)
    requires forall j :: 0 <= j < |key| ==> !IsWordChar(key[j])
    ensures Match(key) == None
  {
    MatchSpec(key);
  }

  // ---------------------------------------------------------------------------
  // The operator class the string filters' long codes need

  /** A character of an operator code that may hold `_`, as `not_like` does. */
  predicate IsOperatorChar(c: char) { IsLowerChar(c) || c == '_' }

  /**
    The matcher with the operator group widened to `[a-z_]+`, so that `not_like`,
    `starts_with` and `ends_with` are captured as operator codes.
  */
  function MatchIntended(key: string): (r: Option<Captures>)
    ensures r.None? <==> !HasWordChar(key)
    ensures r.Some? ==> IsFieldName(r.value.name)
  {
    var p := FirstWordIndex(key, 0);
    if p == |key| then
      None
    else
      assert IsWordChar(key[p]);
      var e := RunEnd(key, p, IsWordChar);
      var op := Group(key, e, IsOperatorChar);
      Some(Captures(key[p..e], op, Group(key, e + GroupWidth(op), IsDigitChar)))
  }

  /** A run of `inRun` characters from `i` to `j` that stops at `j` ends at `j`. */
  lemma {:induction false} RunEndAt(s: string, i: nat, j: nat, inRun: char -> bool)
    requires i <= j <= |s|
    requires forall k :: i <= k < j ==> inRun(s[k])
    requires j == |s| || !inRun(s[j])
    ensures RunEnd(s, i, inRun) == j
    decreases j - i
  {
    if i < j {
      RunEndAt(s, i + 1, j, inRun);
    }
  }

  /** With the widened class, `name[code]` captures a code holding `_` (`name[starts_with]`). */
  lemma MatchIntendedOperator(name: string, code: string)
    requires IsFieldName(name) && |code| > 0
    requires forall j :: 0 <= j < |code| ==> IsOperatorChar(code[j])
    ensures MatchIntended(name + "[" + code + "]") == Some(Captures(name, Some(code), None))
  {
    var key := name + "[" + code + "]";
    var e := |name|;
    var close := e + 1 + |code|;
    assert key[0..e] == name && key[e] == '[' && key[close] == ']';
    assert IsWordChar(key[0]);
    RunEndAt(key, 0, e, IsWordChar);
    assert key[e + 1 .. close] == code;
    RunEndAt(key, e + 1, close, IsOperatorChar);
  }

  /** Widening the class keeps every bracket group the lower-case class finds. */
  lemma GroupWidened(s: string, i: nat)
    requires i <= |s| && Group(s, i, IsLowerChar).Some?
    ensures Group(s, i, IsOperatorChar) == Group(s, i, IsLowerChar)
  {
    var close := RunEnd(s, i + 1, IsLowerChar);
    assert forall k :: i + 1 <= k < close ==> IsOperatorChar(s[k]);
    RunEndAt(s, i + 1, close, IsOperatorChar);
  }

  /** Widening the class changes nothing for a key whose operator the pattern already captures. */
  lemma MatchIntendedAgrees(key: string)
    requires Match(key).Some? && Match(key).value.op.Some?
    ensures MatchIntended(key) == Match(key)
  {
    var p := FirstWordIndex(key, 0);
    var e := RunEnd(key, p, IsWordChar);
    var op := Group(key, e, IsLowerChar);
    GroupWidened(key, e);
    var c := Captures(key[p..e], op, Group(key, e + GroupWidth(op), IsDigitChar));
    assert Match(key) == Some(c);
    assert MatchIntended(key) == Some(c);
  }
}
