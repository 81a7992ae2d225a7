/** Report redaction (internal/domain/report_json.go): database URLs first, then each sensitive value in turn.
    Both passes scan left to right and replace non-overlapping matches, so one function describes both. */
module Redaction {
  import opened Domain

  const MARKER := "[REDACTED]"
  const URL_MARKER := "[REDACTED_DATABASE_URL]"

  /** How long a match starts at the front of a text; 0 when none does. */
  type Matcher = string -> nat

  predicate Matches(len: Matcher, text: string) {
    0 < len(text) <= |text|
  }

  function Replace(text: string, len: Matcher, marker: string): string
    decreases |text|
  {
    if text == "" then ""
    else if Matches(len, text) then marker + Replace(text[len(text)..], len, marker)
    else [text[0]] + Replace(text[1..], len, marker)
  }

  predicate OccursAt(text: string, part: string, i: int) {
    0 <= i <= |text| - |part| && text[i..i + |part|] == part
  }

  predicate Contains(text: string, part: string) {
    exists i :: 0 <= i <= |text| && OccursAt(text, part, i)
  }

  // ---------- the two matchers ----------

  function Literal(value: string): Matcher {
    t => if value <= t then |value| else 0
  }

  /** Case folding of the pattern's letters, as `(?i)` does it: `s` also folds with the long s. */
  predicate Folds(c: char, p: char) {
    c == p || ('a' <= p <= 'z' && c as int == p as int - 32) || (p == 's' && c == '\U{017F}')
  }

  predicate FoldedPrefix(pattern: string, text: string) {
    |pattern| <= |text| && forall i :: 0 <= i < |pattern| ==> Folds(text[i], pattern[i])
  }

  /** The class `[^\s"']`. */
  predicate UrlChar(c: char) {
    c !in " \t\n\U{000C}\r\"'"
  }

  function UrlRun(text: string): (n: nat)
    ensures n <= |text|
    ensures n > 0 <==> text != "" && UrlChar(text[0])
  {
    if text == "" || !UrlChar(text[0]) then 0 else 1 + UrlRun(text[1..])
  }

  function SchemeLength(text: string): (n: nat)
    ensures n <= |text|
  {
    if FoldedPrefix("postgresql://", text) then 13
    else if FoldedPrefix("postgres://", text) then 11
    else 0
  }

  function UrlLength(text: string): nat {
    var s := SchemeLength(text);
    if s > 0 && UrlRun(text[s..]) > 0 then s + UrlRun(text[s..]) else 0
  }

  predicate UrlAt(text: string, i: int) {
    0 <= i <= |text| && UrlLength(text[i..]) > 0
  }

  predicate HasUrl(text: string) {
    exists i :: 0 <= i <= |text| && UrlAt(text, i)
  }

  // ---------- redact ----------

  function ReplaceUrls(text: string): string {
    Replace(text, UrlLength, URL_MARKER)
  }

  function RedactValues(text: string, values: seq<string>): string
    decreases values
  {
    if values == [] then text
    else RedactValues(if values[0] == "" then text else Replace(text, Literal(values[0]), MARKER), values[1..])
  }

  function Redacted(text: string, values: seq<string>): string {
    RedactValues(ReplaceUrls(text), values)
  }

  // ---------- what survives a replacement ----------

  /** One is a prefix of the other: they can start at the same place in one text. */
  predicate Compatible(a: string, b: string) {
    a <= b || b <= a
  }

  /** In no text can an occurrence of v share a character with an occurrence of the marker. */
  predicate ClearOf(v: string, marker: string) {
    NoneRunsInto(v, marker) && forall k :: 0 <= k < |marker| ==> !Compatible(v, marker[k..])
  }

  predicate NoneRunsInto(v: string, marker: string) {
    forall k :: 0 <= k < |v| ==> !Compatible(v[k..], marker)
  }

  /** v stands at j in the text, no match starts inside it, and what follows it is replaced on its own. */
  ghost predicate Untouched(text: string, len: Matcher, marker: string, v: string, i: int, j: int) {
    && OccursAt(text, v, j)
    && (forall k :: j <= k < j + |v| ==> !Matches(len, text[k..]))
    && 0 <= i <= i + |v| <= |Replace(text, len, marker)|
    && Replace(text, len, marker)[i + |v|..] == Replace(text[j + |v|..], len, marker)
  }

  lemma {:induction false} PrefixUntouched(text: string, len: Matcher, marker: string, v: string)
    requires marker != "" && NoneRunsInto(v, marker)
    requires v <= Replace(text, len, marker)
    ensures Untouched(text, len, marker, v, 0, 0)
    decreases |text|
  {
    var out := Replace(text, len, marker);
    if v == "" {
      assert out[0..] == out && text[0..] == text && text[0..0] == "";
    } else {
      assert v[0..] == v;
      assert text != "";
      if Matches(len, text) {
        assert false;
      }
      var rest := Replace(text[1..], len, marker);
      assert out == [text[0]] + rest;
      assert v[1..] <= rest by {
        assert v == out[..|v|];
        assert rest[..|v| - 1] == v[1..];
      }
      forall k | 0 <= k < |v[1..]| ensures !Compatible(v[1..][k..], marker) {
        assert v[1..][k..] == v[k + 1..];
      }
      PrefixUntouched(text[1..], len, marker, v[1..]);
      Shift(text, len, marker, v);
    }
  }

  lemma Shift(text: string, len: Matcher, marker: string, v: string)
    requires text != "" && v != "" && !Matches(len, text) && v <= Replace(text, len, marker)
    requires Untouched(text[1..], len, marker, v[1..], 0, 0)
    ensures Untouched(text, len, marker, v, 0, 0)
  {
    var tail := text[1..];
    var rest := Replace(tail, len, marker);
    assert Replace(text, len, marker) == [text[0]] + rest;
    assert v[0] == text[0];
    assert text[0..|v|] == [text[0]] + tail[0..|v| - 1];
    assert v == [v[0]] + v[1..];
    forall k | 0 <= k < |v| ensures !Matches(len, text[k..]) {
      if k == 0 {
        assert text[0..] == text;
      } else {
        assert text[k..] == tail[k - 1..];
      }
    }
    assert text[|v|..] == tail[|v| - 1..];
    assert Replace(text, len, marker)[|v|..] == rest[|v| - 1..];
  }

  /** Where a value clear of the marker occurs after a replacement, it stood there, whole, before it. */
  lemma {:induction false} OccurrenceUntouched(text: string, len: Matcher, marker: string, v: string, i: nat)
    returns (j: nat)
    requires marker != "" && v != "" && ClearOf(v, marker)
    requires OccursAt(Replace(text, len, marker), v, i)
    ensures Untouched(text, len, marker, v, i, j)
    decreases |text|
  {
    hide ClearOf, NoneRunsInto, Untouched;
    var out := Replace(text, len, marker);
    if Matches(len, text) {
      var n := len(text);
      var rest := Replace(text[n..], len, marker);
      assert out == marker + rest;
      NotBefore(marker, rest, v, i);
      assert rest[i - |marker|..i - |marker| + |v|] == out[i..i + |v|];
      j := OccurrenceUntouched(text[n..], len, marker, v, i - |marker|);
      Advance(text, len, marker, v, i, n, |marker|, j);
      j := j + n;
    } else if i == 0 {
      assert v <= out;
      ClearRunsIntoNone(v, marker);
      PrefixUntouched(text, len, marker, v);
      j := 0;
    } else {
      var rest := Replace(text[1..], len, marker);
      assert out == [text[0]] + rest;
      assert rest[i - 1..i - 1 + |v|] == out[i..i + |v|];
      j := OccurrenceUntouched(text[1..], len, marker, v, i - 1);
      Advance(text, len, marker, v, i, 1, 1, j);
      j := j + 1;
    }
  }

  lemma Straddles(marker: string, rest: string, v: string, i: nat)
    requires i < |marker| && OccursAt(marker + rest, v, i)
    ensures Compatible(v, marker[i..])
  {
    var all := marker + rest;
    if |v| <= |marker| - i {
      assert marker[i..][..|v|] == all[i..i + |v|];
    } else {
      assert v[..|marker| - i] == all[i..|marker|] == marker[i..];
    }
  }

  lemma NotBefore(marker: string, rest: string, v: string, i: nat)
    requires v != "" && ClearOf(v, marker) && OccursAt(marker + rest, v, i)
    ensures i >= |marker|
  {
    if i < |marker| {
      Straddles(marker, rest, v, i);
      assert false;
    }
  }

  lemma ClearRunsIntoNone(v: string, marker: string)
    requires ClearOf(v, marker)
    ensures NoneRunsInto(v, marker)
  {
  }

  /** Skipping `n` characters of the text and `m` of the output carries an untouched occurrence along. */
  lemma Advance(text: string, len: Matcher, marker: string, v: string, i: nat, n: nat, m: nat, j: nat)
    requires n <= |text| && m <= i && m <= |Replace(text, len, marker)|
    requires Replace(text, len, marker)[m..] == Replace(text[n..], len, marker)
    requires Untouched(text[n..], len, marker, v, i - m, j)
    ensures Untouched(text, len, marker, v, i, j + n)
  {
    hide Replace, Matches;
    var tail := text[n..];
    assert text[j + n..j + n + |v|] == tail[j..j + |v|];
    forall k | j + n <= k < j + n + |v| ensures !Matches(len, text[k..]) {
      assert text[k..] == tail[k - n..];
    }
    assert text[j + n + |v|..] == tail[j + |v|..];
    var out := Replace(text, len, marker);
    assert out[i + |v|..] == out[m..][i - m + |v|..];
  }

  /** One replacement pass removes its own value and brings back no other. */
  lemma PassHides(text: string, value: string, v: string)
    requires value != "" && v != "" && ClearOf(v, MARKER)
    requires v == value || !Contains(text, v)
    ensures !Contains(Replace(text, Literal(value), MARKER), v)
  {
    var out := Replace(text, Literal(value), MARKER);
    LiteralMatches(text, v);
    if Contains(out, v) {
      var i :| 0 <= i <= |out| && OccursAt(out, v, i);
      var j := OccurrenceUntouched(text, Literal(value), MARKER, v, i);
      assert false;
    }
  }

  lemma LiteralMatches(text: string, v: string)
    requires v != ""
    ensures forall j :: OccursAt(text, v, j) ==> Matches(Literal(v), text[j..]) && Contains(text, v)
  {
    forall j | OccursAt(text, v, j) ensures Matches(Literal(v), text[j..]) && Contains(text, v) {
      assert text[j..][..|v|] == text[j..j + |v|];
    }
  }

  lemma {:induction false} PassesHide(text: string, values: seq<string>, v: string)
    requires v != "" && ClearOf(v, MARKER)
    requires v in values || !Contains(text, v)
    ensures !Contains(RedactValues(text, values), v)
    decreases values
  {
    if values != [] {
      var next := if values[0] == "" then text else Replace(text, Literal(values[0]), MARKER);
      if values[0] != "" && (v == values[0] || !Contains(text, v)) {
        PassHides(text, values[0], v);
      }
      assert values == [values[0]] + values[1..];
      PassesHide(next, values[1..], v);
    }
  }

  ghost predicate Hidden(text: string, values: seq<string>) {
    forall v :: v in values && v != "" ==> !Contains(text, v)
  }

  /** No sensitive value is left, for every text and every order of the list. */
  lemma RedactionHides(text: string, values: seq<string>)
    requires forall v :: v in values && v != "" ==> ClearOf(v, MARKER)
    ensures Hidden(Redacted(text, values), values)
  {
    forall v | v in values && v != "" ensures !Contains(Redacted(text, values), v) {
      PassesHide(ReplaceUrls(text), values, v);
    }
  }

  // ---------- when hiding fails ----------

  predicate BracketFree(v: string) {
    '[' !in v && ']' !in v
  }

  /** Without brackets a value can only meet the marker inside the word REDACTED. */
  lemma BracketFreeIsClear(v: string)
    requires v != "" && BracketFree(v)
    ensures ClearOf(v, MARKER) <==> !Contains("REDACTED", v)
  {
    forall k | 0 <= k < |v| ensures !Compatible(v[k..], MARKER) {
      assert v[k..][0] == v[k] && MARKER[0] == '[';
    }
    forall k | 0 <= k < |MARKER| ensures Compatible(v, MARKER[k..]) <==> OccursAt("REDACTED", v, k - 1) {
      MeetsInsideWord(v, k);
    }
    hide Compatible, OccursAt, BracketFree;
    if !ClearOf(v, MARKER) {
      var k :| 0 <= k < |MARKER| && Compatible(v, MARKER[k..]);
      assert OccursAt("REDACTED", v, k - 1);
    }
    if Contains("REDACTED", v) {
      var i :| 0 <= i <= 8 && OccursAt("REDACTED", v, i);
      assert Compatible(v, MARKER[i + 1..]);
    }
  }

  lemma MeetsInsideWord(v: string, k: nat)
    requires v != "" && BracketFree(v) && k < |MARKER|
    ensures Compatible(v, MARKER[k..]) <==> OccursAt("REDACTED", v, k - 1)
  {
    var tail := MARKER[k..];
    assert v[0] in v;
    if k > 0 {
      assert MARKER[1..9] == "REDACTED" && tail[9 - k] == MARKER[9];
      assert |v| > 9 - k ==> v[9 - k] in v;
      assert |v| <= 9 - k ==> "REDACTED"[k - 1..k - 1 + |v|] == tail[..|v|];
    }
  }

  lemma ContainsTransitive(a: string, b: string, c: string)
    requires Contains(a, b) && Contains(b, c)
    ensures Contains(a, c)
  {
    var i :| 0 <= i <= |a| && OccursAt(a, b, i);
    var j :| 0 <= j <= |b| && OccursAt(b, c, j);
    assert a[i..i + |b|] == b;
    forall k | 0 <= k < |c| ensures a[i + j + k] == c[k] {
      assert b[j + k] == b[j..j + |c|][k] && b[j + k] == a[i..i + |b|][j + k];
    }
    assert a[i + j..i + j + |c|] == c;
    assert OccursAt(a, c, i + j);
  }

  /** A pass either changes nothing or leaves a marker. */
  lemma {:induction false} PassLeavesMarker(text: string, len: Matcher, marker: string)
    ensures Replace(text, len, marker) == text || Contains(Replace(text, len, marker), marker)
    decreases |text|
  {
    if text != "" {
      var out := Replace(text, len, marker);
      if Matches(len, text) {
        assert OccursAt(out, marker, 0);
      } else {
        var rest := Replace(text[1..], len, marker);
        assert out == [text[0]] + rest;
        PassLeavesMarker(text[1..], len, marker);
        if rest == text[1..] {
          assert out == text;
        } else {
          assert OccursAt([text[0]], [text[0]], 0);
          var i :| 0 <= i <= |rest| && OccursAt(rest, marker, i);
          assert out[i + 1..i + 1 + |marker|] == rest[i..i + |marker|];
          assert OccursAt(out, marker, i + 1);
        }
      }
    }
  }

  lemma {:induction false} MarkerStays(text: string, values: seq<string>)
    requires Contains(text, MARKER)
    ensures Contains(RedactValues(text, values), MARKER)
    decreases values
  {
    if values != [] {
      if values[0] != "" {
        PassLeavesMarker(text, Literal(values[0]), MARKER);
      }
      MarkerStays(if values[0] == "" then text else Replace(text, Literal(values[0]), MARKER), values[1..]);
    }
  }

  /** A text equal to a listed value ends up with a marker in it, whichever value was replaced first. */
  lemma {:induction false} ValueBecomesMarker(v: string, values: seq<string>)
    requires v != "" && v in values
    ensures Contains(RedactValues(v, values), MARKER)
    decreases values
  {
    var next := if values[0] == "" then v else Replace(v, Literal(values[0]), MARKER);
    assert values == [values[0]] + values[1..];
    if values[0] != "" {
      PassLeavesMarker(v, Literal(values[0]), MARKER);
    }
    if values[0] == v {
      assert v[|v|..] == "" && next == MARKER + Replace("", Literal(v), MARKER);
      assert OccursAt(next, MARKER, 0);
      MarkerStays(next, values[1..]);
    } else if next == v {
      ValueBecomesMarker(v, values[1..]);
    } else {
      MarkerStays(next, values[1..]);
    }
  }

  lemma {:induction false} ShortTextsAreNotUrls(text: string)
    requires |text| <= 11
    ensures ReplaceUrls(text) == text
  {
    if text != "" {
      ShortTextsAreNotUrls(text[1..]);
    }
  }

  /** A listed value inside the marker is put back by its own replacement. */
  lemma MarkerPartLeaks(values: seq<string>, v: string)
    requires v != "" && v in values && Contains(MARKER, v)
    ensures Contains(Redacted(v, values), v)
  {
    ShortTextsAreNotUrls(v);
    ValueBecomesMarker(v, values);
    ContainsTransitive(Redacted(v, values), MARKER, v);
  }

  /** For bracket-free values: every text comes out clean exactly when no value is part of the word REDACTED. */
  lemma HidingIsExact(values: seq<string>)
    requires forall v :: v in values ==> BracketFree(v)
    ensures (forall text :: Hidden(Redacted(text, values), values))
      <==> (forall v :: v in values && v != "" ==> !Contains("REDACTED", v))
  {
    if forall v :: v in values && v != "" ==> !Contains("REDACTED", v) {
      forall v | v in values && v != "" ensures ClearOf(v, MARKER) {
        BracketFreeIsClear(v);
      }
      forall text ensures Hidden(Redacted(text, values), values) {
        RedactionHides(text, values);
      }
    } else {
      var v :| v in values && v != "" && Contains("REDACTED", v);
      assert OccursAt(MARKER, "REDACTED", 1);
      ContainsTransitive(MARKER, "REDACTED", v);
      MarkerPartLeaks(values, v);
      assert !Hidden(Redacted(v, values), values);
    }
  }

  /** Brackets are a second way to fail: the marker's own bracket completes the value `a[`. */
  lemma BracketLeaks()
    ensures !Contains("REDACTED", "a[")
    ensures Contains(Redacted("aa[", ["a["]), "a[")
  {
    ShortTextsAreNotUrls("aa[");
    var len := Literal("a[");
    assert "aa["[1..] == "a[" && "a["[2..] == "";
    assert Replace("a[", len, MARKER) == MARKER + Replace("", len, MARKER);
    assert Replace("aa[", len, MARKER) == ['a'] + MARKER;
    assert RedactValues("aa[", ["a["]) == ['a'] + MARKER;
    assert OccursAt(['a'] + MARKER, "a[", 0);
    forall i | 0 <= i <= 8 ensures !OccursAt("REDACTED", "a[", i) {
      if i <= 6 {
        assert "REDACTED"[i..i + 2][0] == "REDACTED"[i];
      }
    }
  }

  // ---------- URLs ----------

  /** The text at i folds to a scheme, and a URL character follows. */
  lemma UrlMeans(text: string, i: nat)
    requires i <= |text|
    ensures UrlAt(text, i) <==>
      var s := SchemeLength(text[i..]); s > 0 && i + s < |text| && UrlChar(text[i + s])
  {
    var s := SchemeLength(text[i..]);
    if s > 0 && i + s < |text| {
      assert text[i..][s..][0] == text[i + s];
    }
  }

  predicate Marker(marker: string) {
    |marker| > 1 && marker[0] == '[' && marker[|marker| - 1] == ']' && ':' !in marker
  }

  lemma SchemeIsClear(v: string, marker: string)
    requires Marker(marker) && |v| >= 3 && v[|v| - 3] == ':' && BracketFree(v)
    ensures ClearOf(v, marker)
  {
    forall k | 0 <= k < |v| ensures !Compatible(v[k..], marker) {
      assert v[k..][0] == v[k];
    }
    forall k | 0 <= k < |marker| ensures !Compatible(v, marker[k..]) {
      assert marker[k..][|marker| - k - 1] == ']';
      if |v| <= |marker| - k {
        assert marker[k..][..|v|][|v| - 3] == marker[k + |v| - 3];
      }
    }
  }

  lemma SchemeShape(text: string)
    requires SchemeLength(text) > 0
    ensures var v := text[..SchemeLength(text)]; |v| >= 3 && v[|v| - 3] == ':' && BracketFree(v) && UrlChar(v[0])
    ensures forall t :: text[..SchemeLength(text)] <= t ==> SchemeLength(t) == SchemeLength(text)
  {
  }

  lemma ReplacedHead(text: string, len: Matcher, marker: string)
    requires forall t :: Matches(len, t) ==> UrlChar(t[0])
    requires Replace(text, len, marker) != "" && UrlChar(Replace(text, len, marker)[0])
    ensures text != "" && UrlChar(text[0])
  {
  }

  /** A URL found after a pass stood in the text before it, at a place where the pass matched nothing. */
  lemma UrlWasThere(text: string, len: Matcher, marker: string, i: nat) returns (j: nat)
    requires Marker(marker) && forall t :: Matches(len, t) ==> UrlChar(t[0])
    requires i <= |Replace(text, len, marker)| && UrlAt(Replace(text, len, marker), i)
    ensures j <= |text| && UrlAt(text, j) && !Matches(len, text[j..])
  {
    var out := Replace(text, len, marker);
    UrlMeans(out, i);
    var s := SchemeLength(out[i..]);
    var v := out[i..][..s];
    assert v == out[i..i + s];
    SchemeShape(out[i..]);
    SchemeIsClear(v, marker);
    j := OccurrenceUntouched(text, len, marker, v, i);
    var rest := text[j + s..];
    assert Replace(rest, len, marker)[0] == out[i + s];
    ReplacedHead(rest, len, marker);
    assert rest[0] == text[j + s];
    assert v <= text[j..] by { assert text[j..][..s] == text[j..j + s]; }
    UrlMeans(text, j);
  }

  lemma UrlMatcher()
    ensures forall t :: Matches(UrlLength, t) ==> UrlChar(t[0])
  {
    forall t | Matches(UrlLength, t) ensures UrlChar(t[0]) {
      SchemeShape(t);
    }
  }

  lemma UrlsGone(text: string)
    ensures !HasUrl(ReplaceUrls(text))
  {
    forall i | 0 <= i <= |ReplaceUrls(text)| ensures !UrlAt(ReplaceUrls(text), i) {
      UrlNotAt(text, i);
    }
  }

  lemma UrlNotAt(text: string, i: nat)
    requires i <= |Replace(text, UrlLength, URL_MARKER)|
    ensures !UrlAt(Replace(text, UrlLength, URL_MARKER), i)
  {
    assert Marker(URL_MARKER);
    UrlMatcher();
    hide *;
    if UrlAt(Replace(text, UrlLength, URL_MARKER), i) {
      var j := UrlWasThere(text, UrlLength, URL_MARKER, i);
      UrlMatches(text, j);
      assert false;
    }
  }

  lemma UrlMatches(text: string, j: nat)
    requires j <= |text| && UrlAt(text, j)
    ensures Matches(UrlLength, text[j..])
  {
  }

  /** The value's first character would have continued a URL, so that its marker cannot newly complete one;
      or the value contains a URL, and is never found once the URLs are gone. */
  predicate UrlSafe(v: string) {
    v == "" || UrlChar(v[0]) || HasUrl(v)
  }

  lemma UrlWithin(text: string, v: string, i: nat)
    requires HasUrl(v) && OccursAt(text, v, i)
    ensures HasUrl(text)
  {
    assert text == text[..i] + v + text[i + |v|..];
    UrlInMiddle(text[..i], v, text[i + |v|..]);
  }

  lemma UrlInMiddle(a: string, v: string, b: string)
    requires HasUrl(v)
    ensures HasUrl(a + v + b)
  {
    var j :| 0 <= j <= |v| && UrlAt(v, j);
    UrlMoves(a, v, b, j);
  }

  lemma UrlMoves(a: string, v: string, b: string, j: nat)
    requires j <= |v| && UrlAt(v, j)
    ensures UrlAt(a + v + b, |a| + j)
  {
    hide *;
    var text := a + v + b;
    UrlMeans(v, j);
    SchemeShape(v[j..]);
    assert text[|a| + j..] == v[j..] + b;
    assert v[j..][..SchemeLength(v[j..])] <= v[j..] + b;
    UrlMeans(text, |a| + j);
  }

  lemma NotContained(text: string, v: string)
    requires v != "" && !Contains(text, v)
    ensures Replace(text, Literal(v), MARKER) == text
  {
    forall i | 0 <= i <= |text| ensures !Matches(Literal(v), text[i..]) {
      if v <= text[i..] {
        assert text[i..i + |v|] == text[i..][..|v|];
        assert OccursAt(text, v, i);
      }
    }
    NothingToReplace(text, Literal(v), MARKER);
  }

  lemma PassMakesNoUrl(text: string, v: string)
    requires !HasUrl(text) && v != "" && UrlSafe(v)
    ensures !HasUrl(Replace(text, Literal(v), MARKER))
  {
    var next := Replace(text, Literal(v), MARKER);
    if UrlChar(v[0]) {
      assert forall t :: Matches(Literal(v), t) ==> UrlChar(t[0]);
      if HasUrl(next) {
        var i :| 0 <= i <= |next| && UrlAt(next, i);
        var j := UrlWasThere(text, Literal(v), MARKER, i);
        assert false;
      }
    } else {
      if Contains(text, v) {
        var i :| 0 <= i <= |text| && OccursAt(text, v, i);
        UrlWithin(text, v, i);
        assert false;
      }
      NotContained(text, v);
    }
  }

  lemma {:induction false} PassesMakeNoUrl(text: string, values: seq<string>)
    requires !HasUrl(text) && forall v :: v in values ==> UrlSafe(v)
    ensures !HasUrl(RedactValues(text, values))
    decreases values
  {
    hide HasUrl, UrlSafe;
    if values != [] {
      if values[0] != "" {
        PassMakesNoUrl(text, values[0]);
      }
      assert values == [values[0]] + values[1..];
      PassesMakeNoUrl(if values[0] == "" then text else Replace(text, Literal(values[0]), MARKER), values[1..]);
    }
  }

  /** No database URL is left, and replacing values forms no new one. */
  lemma RedactionRemovesUrls(text: string, values: seq<string>)
    requires forall v :: v in values ==> UrlSafe(v)
    ensures !HasUrl(Redacted(text, values))
  {
    UrlsGone(text);
    PassesMakeNoUrl(ReplaceUrls(text), values);
  }

  lemma {:induction false} NothingToReplace(text: string, len: Matcher, marker: string)
    requires forall i :: 0 <= i <= |text| ==> !Matches(len, text[i..])
    ensures Replace(text, len, marker) == text
    decreases |text|
  {
    if text != "" {
      assert text[0..] == text;
      forall i | 0 <= i <= |text[1..]| ensures !Matches(len, text[1..][i..]) {
        assert text[1..][i..] == text[i + 1..];
      }
      NothingToReplace(text[1..], len, marker);
    }
  }

  lemma NoUrlToReplace(text: string)
    requires !HasUrl(text)
    ensures ReplaceUrls(text) == text
  {
    forall i | 0 <= i <= |text| ensures !Matches(UrlLength, text[i..]) {
      assert !UrlAt(text, i);
    }
    NothingToReplace(text, UrlLength, URL_MARKER);
  }

  lemma {:induction false} NothingHidden(text: string, values: seq<string>)
    requires Hidden(text, values)
    ensures RedactValues(text, values) == text
    decreases values
  {
    if values != [] {
      if values[0] != "" {
        NotContained(text, values[0]);
      }
      NothingHidden(text, values[1..]);
    }
  }

  /** Redacting twice is redacting once. */
  lemma RedactionIsIdempotent(text: string, values: seq<string>)
    requires forall v :: v in values && v != "" ==> ClearOf(v, MARKER)
    requires forall v :: v in values ==> UrlSafe(v)
    ensures Redacted(Redacted(text, values), values) == Redacted(text, values)
  {
    RedactionHides(text, values);
    RedactionRemovesUrls(text, values);
    NoUrlToReplace(Redacted(text, values));
    NothingHidden(Redacted(text, values), values);
  }

  /** With one sensitive value: every text comes out URL-free exactly when the value is safe. */
  lemma UrlRemovalIsExact(v: string)
    ensures (forall text :: !HasUrl(Redacted(text, [v]))) <==> UrlSafe(v)
  {
    if UrlSafe(v) {
      forall text ensures !HasUrl(Redacted(text, [v])) {
        RedactionRemovesUrls(text, [v]);
      }
    } else {
      BareScheme(v);
    }
  }

  /** A bare scheme before an unsafe value is no URL, but becomes one when the value turns into a marker. */
  lemma BareScheme(v: string)
    requires !UrlSafe(v)
    ensures HasUrl(Redacted("postgres://" + v, [v]))
  {
    BareSchemeIsNoUrl(v);
    NoUrlToReplace("postgres://" + v);
    SkipTo("postgres://", v);
    var out := "postgres://" + MARKER;
    assert RedactValues("postgres://" + v, [v]) == RedactValues(out, []) == out;
    MarkedSchemeIsUrl();
  }

  lemma MarkedSchemeIsUrl()
    ensures HasUrl("postgres://" + MARKER)
  {
    var out := "postgres://" + MARKER;
    assert out[0..] == out;
    assert out[8] == ':';
    UrlMeans(out, 0);
    assert UrlAt(out, 0);
  }

  lemma BareSchemeIsNoUrl(v: string)
    requires !UrlSafe(v)
    ensures !HasUrl("postgres://" + v)
  {
    hide SchemeLength, UrlLength, UrlRun;
    var text := "postgres://" + v;
    forall i | 0 <= i <= |text| ensures !UrlAt(text, i) {
      if i >= 11 {
        assert text[i..] == v[i - 11..];
        assert !UrlAt(v, i - 11);
      } else if i == 0 {
        BareSchemeAtStart(v);
      } else {
        assert text[i..][0] == text[i] == "postgres://"[i];
        NoScheme(text, i);
      }
    }
  }

  lemma BareSchemeAtStart(v: string)
    requires v != "" && !UrlChar(v[0])
    ensures !UrlAt("postgres://" + v, 0)
  {
    var text := "postgres://" + v;
    assert text[0..] == text && text[8] == ':';
    assert SchemeLength(text) <= 11;
    assert text[11..] == v;
    assert UrlRun(v) == 0;
  }

  lemma NoScheme(text: string, i: nat)
    requires i < |text| && !Folds(text[i..][0], 'p')
    ensures !UrlAt(text, i)
  {
  }

  /** The value is found first right after a prefix that has none of its first character. */
  lemma {:induction false} SkipTo(prefix: string, v: string)
    requires v != "" && v[0] !in prefix
    ensures Replace(prefix + v, Literal(v), MARKER) == prefix + MARKER
    decreases |prefix|
  {
    var text := prefix + v;
    if prefix == "" {
      assert text == v && v[|v|..] == "";
      assert Replace("", Literal(v), MARKER) == "";
      assert MARKER + "" == MARKER;
      assert prefix + MARKER == MARKER;
    } else {
      assert text[0] == prefix[0] && text[1..] == prefix[1..] + v;
      assert !(v <= text);
      SkipTo(prefix[1..], v);
      assert [prefix[0]] + (prefix[1..] + MARKER) == prefix + MARKER;
    }
  }

  // ---------- the methods ----------

  /** `redact`: one variable, rewritten by the URL pass and then by each sensitive value. */
  method Redact(text: string, values: seq<string>) returns (value: string)
    ensures value == Redacted(text, values)
  {
    value := ReplaceUrls(text);
    for i := 0 to |values|
      invariant RedactValues(value, values[i..]) == Redacted(text, values)
    {
      assert values[i..][1..] == values[i + 1..];
      if values[i] != "" {
        value := Replace(value, Literal(values[i]), MARKER);
      }
    }
  }

  function RedactedFinding(f: Finding, values: seq<string>): Finding {
    f.(target := Redacted(f.target, values), message := Redacted(f.message, values),
      detail := Redacted(f.detail, values))
  }

  function RedactedOperation(o: Evidence, values: seq<string>): Evidence {
    o.(table := Redacted(o.table, values), template := Redacted(o.template, values), error := Redacted(o.error, values))
  }

  /** What `MarshalJSON` hands to the encoder: every free-text field redacted, everything else as it was. */
  ghost predicate Published(report: Report, out: Report) {
    var values := report.sensitiveValues;
    && out.outcome == report.outcome && out.sensitiveValues == []
    && out.summary == Redacted(report.summary, values)
    && out.server == Server(Redacted(report.server.product, values), Redacted(report.server.version, values))
    && |out.findings| == |report.findings|
    && (forall i :: 0 <= i < |out.findings| ==> out.findings[i] == RedactedFinding(report.findings[i], values))
    && |out.operations| == |report.operations|
    && forall i :: 0 <= i < |out.operations| ==> out.operations[i] == RedactedOperation(report.operations[i], values)
  }

  method RedactFindings(source: seq<Finding>, values: seq<string>) returns (out: seq<Finding>)
    ensures |out| == |source| && forall i :: 0 <= i < |out| ==> out[i] == RedactedFinding(source[i], values)
  {
    hide Redacted;
    var findings := new Finding[|source|](i requires 0 <= i < |source| => source[i]);
    for i := 0 to |source|
      invariant forall k :: 0 <= k < i ==> findings[k] == RedactedFinding(source[k], values)
    {
      var target := Redact(source[i].target, values);
      var message := Redact(source[i].message, values);
      var detail := Redact(source[i].detail, values);
      findings[i] := source[i].(target := target, message := message, detail := detail);
    }
    out := findings[..];
  }

  method RedactOperations(source: seq<Evidence>, values: seq<string>) returns (out: seq<Evidence>)
    ensures |out| == |source| && forall i :: 0 <= i < |out| ==> out[i] == RedactedOperation(source[i], values)
  {
    hide Redacted;
    var operations := new Evidence[|source|](i requires 0 <= i < |source| => source[i]);
    for i := 0 to |source|
      invariant forall k :: 0 <= k < i ==> operations[k] == RedactedOperation(source[k], values)
    {
      var table := Redact(source[i].table, values);
      var template := Redact(source[i].template, values);
      var error := Redact(source[i].error, values);
      operations[i] := source[i].(table := table, template := template, error := error);
    }
    out := operations[..];
  }

  method MarshalFields(report: Report) returns (out: Report)
    ensures Published(report, out)
  {
    var values := report.sensitiveValues;
    var findings := RedactFindings(report.findings, values);
    var operations := RedactOperations(report.operations, values);
    var summary := Redact(report.summary, values);
    var product := Redact(report.server.product, values);
    var version := Redact(report.server.version, values);
    out := Report(report.outcome, summary, Server(product, version), findings, operations, []);
  }

  ghost predicate Clean(text: string, values: seq<string>) {
    Hidden(text, values) && !HasUrl(text)
  }

  /** Nothing published shows a sensitive value or a database URL. */
  lemma PublishedIsClean(report: Report, out: Report)
    requires Published(report, out)
    requires forall v :: v in report.sensitiveValues && v != "" ==> ClearOf(v, MARKER)
    requires forall v :: v in report.sensitiveValues ==> UrlSafe(v)
    ensures var vs := report.sensitiveValues;
      && Clean(out.summary, vs) && Clean(out.server.product, vs) && Clean(out.server.version, vs)
      && (forall f :: f in out.findings ==> Clean(f.target, vs) && Clean(f.message, vs) && Clean(f.detail, vs))
      && forall o :: o in out.operations ==> Clean(o.table, vs) && Clean(o.template, vs) && Clean(o.error, vs)
  {
    var vs := report.sensitiveValues;
    forall text ensures Clean(Redacted(text, vs), vs) {
      RedactionHides(text, vs);
      RedactionRemovesUrls(text, vs);
    }
    hide Clean, Redacted;
  }
}
