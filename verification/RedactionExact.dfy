/** Exactly which single values a replacement pass can put back into a text. */
module RedactionExact {
  import opened Redaction

  /** The first occurrence of v in a text. */
  predicate FirstMatch(text: string, v: string, k: int) {
    0 <= k <= |text| && v <= text[k..] && forall j :: 0 <= j < k ==> !(v <= text[j..])
  }

  /** v can begin inside a marker; or a marker can begin inside v, after k characters that, standing before a v, are not
      replaced themselves. */
  ghost predicate PutBack(v: string) {
    || (exists k :: 0 <= k < |MARKER| && Compatible(v, MARKER[k..]))
    || exists k :: 0 < k < |v| && Compatible(v[k..], MARKER) && FirstMatch(v[..k] + v, v, k)
  }

  function Pass(text: string, v: string): string {
    Replace(text, Literal(v), MARKER)
  }

  lemma PassSteps(text: string, v: string)
    requires v != "" && text != ""
    ensures Pass(text, v) == if v <= text then MARKER + Pass(text[|v|..], v) else [text[0]] + Pass(text[1..], v)
  {
  }

  lemma {:induction false} PassFirst(text: string, v: string, k: nat)
    requires v != "" && FirstMatch(text, v, k)
    ensures Pass(text, v) == text[..k] + MARKER + Pass(text[k + |v|..], v)
    decreases k
  {
    hide Pass;
    PassSteps(text, v);
    assert text[0..] == text;
    if k == 0 {
      assert text[..0] + MARKER == MARKER;
    } else {
      assert !(v <= text[0..]);
      assert forall j :: 0 <= j <= k - 1 ==> text[1..][j..] == text[j + 1..];
      PassFirst(text[1..], v, k - 1);
      assert text[1..][k - 1 + |v|..] == text[k + |v|..];
      assert text[..k] == [text[0]] + text[1..][..k - 1];
    }
  }

  lemma ShortStays(text: string, v: string)
    requires |text| < |v|
    ensures Pass(text, v) == text
  {
    NotContained(text, v);
  }

  /** What follows the first marker of an output that is to contain v. */
  function Remainder(v: string, n: nat): string {
    if |v| <= n then "" else v[n..]
  }

  lemma MarkerThenRest(v: string, k: nat)
    requires v != "" && k < |MARKER| && Compatible(v, MARKER[k..])
    ensures OccursAt(MARKER + Remainder(v, |MARKER| - k), v, k)
  {
    var out := MARKER + Remainder(v, |MARKER| - k);
    assert out[k..] == MARKER[k..] + Remainder(v, |MARKER| - k);
    assert out[k..][..|v|] == out[k..k + |v|];
  }

  lemma BeginsInMarker(v: string, k: nat) returns (text: string)
    requires v != "" && k < |MARKER| && Compatible(v, MARKER[k..])
    ensures Contains(Pass(text, v), v) && forall c :: c in text ==> c in v
  {
    hide Pass;
    MarkerThenRest(v, k);
    var y := Remainder(v, |MARKER| - k);
    text := v + y;
    PassSteps(text, v);
    assert text[|v|..] == y;
    ShortStays(y, v);
    hide OccursAt;
  }

  lemma MatchBefore(h: string, y: string, v: string)
    requires FirstMatch(h + v, v, |h|)
    ensures FirstMatch(h + v + y, v, |h|) && (h + v + y)[|h| + |v|..] == y && (h + v + y)[..|h|] == h
  {
    var text := h + v + y;
    assert text[|h|..] == v + y;
    forall j | 0 <= j < |h| ensures !(v <= text[j..]) {
      assert text[j..][..|v|] == (h + v)[j..][..|v|];
    }
  }

  lemma HeadThenMarker(v: string, k: nat)
    requires k < |v| && Compatible(v[k..], MARKER)
    ensures OccursAt(v[..k] + MARKER + Remainder(v[k..], |MARKER|), v, 0)
  {
    var out := v[..k] + MARKER + Remainder(v[k..], |MARKER|);
    assert out[k..] == MARKER + Remainder(v[k..], |MARKER|);
    assert v[k..] == out[k..][..|v| - k];
    assert out[..|v|] == out[..k] + out[k..][..|v| - k];
    assert v == v[..k] + v[k..];
  }

  lemma TakesInMarker(v: string, k: nat) returns (text: string)
    requires 0 < k < |v| && Compatible(v[k..], MARKER) && FirstMatch(v[..k] + v, v, k)
    ensures Contains(Pass(text, v), v) && forall c :: c in text ==> c in v
  {
    hide Pass, FirstMatch, Compatible;
    var y := Remainder(v[k..], |MARKER|);
    text := v[..k] + v + y;
    MatchBefore(v[..k], y, v);
    PassFirst(text, v, k);
    ShortStays(y, v);
    HeadThenMarker(v, k);
    hide OccursAt;
  }

  /** Where no marker reaches it, an occurrence of v would have been replaced. */
  lemma {:induction false} OnlyPutBack(text: string, v: string, i: nat)
    requires v != "" && OccursAt(Pass(text, v), v, i)
    ensures PutBack(v)
    decreases |text|
  {
    hide Pass, FirstMatch;
    if text == "" {
      ShortStays(text, v);
    } else {
      PassSteps(text, v);
    }
    if v <= text {
      var rest := Pass(text[|v|..], v);
      assert Pass(text, v) == MARKER + rest;
      if i < |MARKER| {
        Straddles(MARKER, rest, v, i);
      } else {
        assert (MARKER + rest)[i..i + |v|] == rest[i - |MARKER|..i - |MARKER| + |v|];
        OnlyPutBack(text[|v|..], v, i - |MARKER|);
      }
    } else if i > 0 {
      assert Pass(text, v)[i..i + |v|] == Pass(text[1..], v)[i - 1..i - 1 + |v|];
      OnlyPutBack(text[1..], v, i - 1);
    } else {
      SomeMatch(text, v);
      var k := FirstOf(text, v);
      assert text[0..] == text;
      PassFirst(text, v, k);
      StandsBefore(text, v, k, Pass(text[k + |v|..], v));
    }
  }

  /** Without a match the output is the text, so v would stand in it. */
  lemma SomeMatch(text: string, v: string)
    requires v != "" && OccursAt(Pass(text, v), v, 0)
    ensures exists j :: 0 <= j <= |text| && v <= text[j..]
  {
    if forall j :: 0 <= j <= |text| ==> !(v <= text[j..]) {
      NothingToReplace(text, Literal(v), MARKER);
    } else {
      var j :| 0 <= j <= |text| && v <= text[j..];
    }
    assert text[0..] == text;
  }

  lemma FirstOf(text: string, v: string) returns (k: nat)
    requires exists j :: 0 <= j <= |text| && v <= text[j..]
    ensures FirstMatch(text, v, k)
  {
    k := 0;
    while !(v <= text[k..])
      invariant k <= |text| && forall j :: 0 <= j < k ==> !(v <= text[j..])
      decreases |text| - k
    {
      k := k + 1;
    }
  }

  lemma PrefixIsAhead(text: string, v: string, k: nat, rest: string)
    requires |v| <= k <= |text| && OccursAt(text[..k] + rest, v, 0)
    ensures v <= text[0..]
  {
    assert v == (text[..k] + rest)[..|v|] == text[..|v|];
  }

  lemma HeadMatches(text: string, v: string, k: nat)
    requires FirstMatch(text, v, k)
    ensures FirstMatch(text[..k] + v, v, k) && text == text[..k] + v + text[k + |v|..]
  {
    var head := text[..k] + v;
    assert head[k..] == v;
    assert text[..k + |v|] == text[..k] + text[k..][..|v|] == head;
    forall j | 0 <= j < k ensures !(v <= head[j..]) {
      assert text[j..][..|v|] == head[j..][..|v|];
    }
  }

  lemma StandsBefore(text: string, v: string, k: nat, rest: string)
    requires v != "" && k > 0 && FirstMatch(text, v, k) && OccursAt(text[..k] + MARKER + rest, v, 0)
    ensures PutBack(v)
  {
    var out := text[..k] + MARKER + rest;
    assert out == text[..k] + (MARKER + rest);
    if |v| <= k {
      PrefixIsAhead(text, v, k, MARKER + rest);
    } else {
      assert v[..k] == out[..|v|][..k] == text[..k];
      assert v[k..] == out[..|v|][k..] == (MARKER + rest)[..|v| - k];
      Straddles(MARKER, rest, v[k..], 0);
      assert MARKER[0..] == MARKER;
      HeadMatches(text, v, k);
    }
  }

  /** One pass hides a value in every text exactly when the pass cannot put it back. */
  lemma PassHidingIsExact(v: string)
    requires v != ""
    ensures (forall text :: !Contains(Pass(text, v), v)) <==> !PutBack(v)
  {
    hide Pass, FirstMatch, Compatible;
    if PutBack(v) {
      var text := SomeLeak(v);
    } else {
      forall text ensures !Contains(Pass(text, v), v) {
        if Contains(Pass(text, v), v) {
          var i :| 0 <= i <= |Pass(text, v)| && OccursAt(Pass(text, v), v, i);
          OnlyPutBack(text, v, i);
        }
      }
    }
  }

  lemma SomeLeak(v: string) returns (text: string)
    requires v != "" && PutBack(v)
    ensures Contains(Pass(text, v), v) && forall c :: c in text ==> c in v
  {
    hide Pass, FirstMatch, Compatible;
    if k :| 0 <= k < |MARKER| && Compatible(v, MARKER[k..]) {
      text := BeginsInMarker(v, k);
    } else {
      var k :| 0 < k < |v| && Compatible(v[k..], MARKER) && FirstMatch(v[..k] + v, v, k);
      text := TakesInMarker(v, k);
    }
  }

  // ---------- texts without URLs ----------

  lemma SchemeHasColon(text: string)
    requires SchemeLength(text) > 0
    ensures ':' in text
  {
    SchemeShape(text);
    assert text[..SchemeLength(text)][SchemeLength(text) - 3] == ':';
  }

  lemma NoColonNoUrl(text: string)
    requires ':' !in text
    ensures !HasUrl(text)
  {
    forall i | 0 <= i <= |text| ensures !UrlAt(text, i) {
      assert forall c :: c in text[i..] ==> c in text;
      if SchemeLength(text[i..]) > 0 {
        SchemeHasColon(text[i..]);
      }
    }
  }

  lemma NoUrlInside(a: string, b: string, c: string)
    requires !HasUrl(a + b + c)
    ensures !HasUrl(b)
  {
    if HasUrl(b) {
      UrlInMiddle(a, b, c);
    }
  }

  lemma NoUrlAtEnd(a: string, b: string)
    requires !HasUrl(a + b)
    ensures !HasUrl(b)
  {
    assert a + b + "" == a + b;
    NoUrlInside(a, b, "");
  }

  lemma NoUrlAtStart(a: string, b: string)
    requires !HasUrl(a + b)
    ensures !HasUrl(a)
  {
    assert "" + a + b == a + b;
    NoUrlInside("", a, b);
  }

  /** No scheme reaches across a bracket. */
  lemma NoUrlAcross(a: string, v: string, b: string)
    requires !BracketFree(v) && !HasUrl(a + v) && !HasUrl(v + b)
    ensures !HasUrl(a + v + b)
  {
    forall i | 0 <= i <= |a + v + b| ensures !UrlAt(a + v + b, i) {
      NoUrlAcrossAt(a, v, b, i);
    }
  }

  lemma CoversBracket(a: string, v: string, b: string, i: nat, s: nat)
    requires !BracketFree(v) && i <= |a| && |a + v| <= i + s <= |a + v + b|
    ensures !BracketFree((a + v + b)[i..][..s])
  {
    var part := (a + v + b)[i..][..s];
    var n :| 0 <= n < |v| && (v[n] == '[' || v[n] == ']');
    assert part[|a| + n - i] == v[n];
  }

  lemma NoUrlAcrossAt(a: string, v: string, b: string, i: nat)
    requires !BracketFree(v) && !HasUrl(a + v) && !HasUrl(v + b) && i <= |a + v + b|
    ensures !UrlAt(a + v + b, i)
  {
    hide SchemeLength, UrlLength;
    var text := a + v + b;
    var s := SchemeLength(text[i..]);
    UrlMeans(text, i);
    if s > 0 && i + s < |text| {
      SchemeShape(text[i..]);
      if i >= |a| {
        assert text[i..] == (v + b)[i - |a|..];
        assert !UrlAt(v + b, i - |a|);
        UrlMeans(v + b, i - |a|);
      } else if i + s < |a + v| {
        assert !UrlAt(a + v, i);
        assert text[i..][..s] == (a + v)[i..][..s];
        UrlMeans(a + v, i);
      } else {
        CoversBracket(a, v, b, i, s);
        assert false;
      }
    }
  }

  // ---------- exactly when a value comes back into a text without URLs ----------

  /** After a v that became a marker, some text puts `rest` into the output, and together with the v before it has no
      URL: `rest` itself, or, up to where a marker fits into `rest`, that much of it, a v, and what follows. */
  ghost predicate Continues(v: string, rest: string)
    decreases |rest|
  {
    || !HasUrl(v + rest)
    || exists m ::
         && 0 <= m < |rest| && Compatible(rest[m..], MARKER) && FirstMatch(rest[..m] + v, v, m)
         && !HasUrl(v + rest[..m] + v) && Continues(v, Remainder(rest[m..], |MARKER|))
  }

  /** v can be put back in the first way, or in the second, by a text that holds no URL. */
  ghost predicate Reappears(v: string) {
    || (exists k :: 0 <= k < |MARKER| && Compatible(v, MARKER[k..]) && Continues(v, Remainder(v, |MARKER| - k)))
    || exists k ::
         && 0 < k < |v| && Compatible(v[k..], MARKER) && FirstMatch(v[..k] + v, v, k)
         && !HasUrl(v[..k] + v) && Continues(v, Remainder(v[k..], |MARKER|))
  }

  /** x begins the marker, or the marker and then its own remainder. */
  lemma MarkerCarries(x: string, tail: string)
    ensures x <= MARKER + tail <==> Compatible(x, MARKER) && Remainder(x, |MARKER|) <= tail
  {
    var all := MARKER + tail;
    if |x| <= |MARKER| {
      assert all[..|x|] == MARKER[..|x|];
    } else {
      assert x == x[..|MARKER|] + x[|MARKER|..];
      assert all[|MARKER|..] == tail && all[..|MARKER|] == MARKER;
      assert x <= all ==> x[|MARKER|..] == all[..|x|][|MARKER|..] == tail[..|x| - |MARKER|];
    }
  }

  lemma HeadCarries(head: string, x: string, tail: string)
    requires Compatible(x, MARKER) && Remainder(x, |MARKER|) <= tail
    ensures head + x <= head + MARKER + tail
  {
    MarkerCarries(x, tail);
    assert head + MARKER + tail == head + (MARKER + tail);
  }

  lemma {:induction false} Follow(v: string, rest: string) returns (y: string)
    requires Continues(v, rest) && |rest| < |v| && (rest != "" ==> !BracketFree(v))
    ensures rest <= Pass(y, v) && !HasUrl(v + y)
    decreases |rest|
  {
    hide Pass, FirstMatch, Compatible, BracketFree, HasUrl;
    if !HasUrl(v + rest) {
      y := rest;
      ShortStays(y, v);
    } else {
      var m :| 0 <= m < |rest| && Compatible(rest[m..], MARKER) && FirstMatch(rest[..m] + v, v, m)
        && !HasUrl(v + rest[..m] + v) && Continues(v, Remainder(rest[m..], |MARKER|));
      var tail := Follow(v, Remainder(rest[m..], |MARKER|));
      y := rest[..m] + v + tail;
      MatchBefore(rest[..m], tail, v);
      PassFirst(y, v, m);
      HeadCarries(rest[..m], rest[m..], Pass(tail, v));
      assert rest == rest[..m] + rest[m..];
      assert v + y == (v + rest[..m]) + v + tail;
      NoUrlAcross(v + rest[..m], v, tail);
    }
  }

  lemma {:induction false} MustContinue(v: string, y: string, rest: string)
    requires v != "" && rest <= Pass(y, v) && !HasUrl(v + y)
    ensures Continues(v, rest)
    decreases |rest|
  {
    hide Pass, FirstMatch, HasUrl, Compatible;
    if exists j :: 0 <= j <= |y| && v <= y[j..] {
      var k := FirstOf(y, v);
      PassFirst(y, v, k);
      HeadMatches(y, v, k);
      var head, tail := y[..k], y[k + |v|..];
      if k >= |rest| {
        assert rest == (head + MARKER + Pass(tail, v))[..|rest|] == head[..|rest|];
        PrefixHasNoUrl(v, y, rest);
      } else {
        Divided(rest, head, MARKER + Pass(tail, v));
        MarkerCarries(rest[k..], Pass(tail, v));
        NoUrlEitherSide(v, head, tail);
        MustContinue(v, tail, Remainder(rest[k..], |MARKER|));
      }
    } else {
      NoMatchStays(y, v);
      PrefixHasNoUrl(v, y, rest);
    }
  }

  lemma NoUrlEitherSide(v: string, head: string, tail: string)
    requires !HasUrl(v + (head + v + tail))
    ensures !HasUrl(v + head + v) && !HasUrl(v + tail)
  {
    hide HasUrl;
    assert v + (head + v + tail) == (v + head + v) + tail;
    NoUrlAtStart(v + head + v, tail);
    assert v + (head + v + tail) == (v + head) + (v + tail);
    NoUrlAtEnd(v + head, v + tail);
  }

  lemma NoMatchStays(y: string, v: string)
    requires forall j :: 0 <= j <= |y| ==> !(v <= y[j..])
    ensures Pass(y, v) == y
  {
    NothingToReplace(y, Literal(v), MARKER);
  }

  lemma PrefixHasNoUrl(v: string, y: string, rest: string)
    requires rest <= y && !HasUrl(v + y)
    ensures !HasUrl(v + rest)
  {
    assert v + y == v + rest + y[|rest|..];
    NoUrlAtStart(v + rest, y[|rest|..]);
  }

  lemma Divided(x: string, head: string, tail: string)
    requires x <= head + tail && |head| <= |x|
    ensures x[..|head|] == head && x[|head|..] <= tail
  {
    assert x == (head + tail)[..|x|];
    assert x[|head|..] == tail[..|x| - |head|];
  }

  /** A value found in the output of a text without URLs came back in one of the two ways. */
  lemma {:induction false} OnlyReappears(text: string, v: string, i: nat)
    requires v != "" && !HasUrl(text) && OccursAt(Pass(text, v), v, i)
    ensures Reappears(v)
    decreases |text|, 0
  {
    hide Pass, FirstMatch, HasUrl, Continues, Compatible;
    if text == "" {
      ShortStays(text, v);
    } else {
      PassSteps(text, v);
    }
    if v <= text {
      assert text == v + text[|v|..];
      NoUrlAtEnd(v, text[|v|..]);
      AfterMatch(text[|v|..], v, i);
    } else if i > 0 {
      assert Pass(text, v)[i..i + |v|] == Pass(text[1..], v)[i - 1..i - 1 + |v|];
      assert text == [text[0]] + text[1..];
      NoUrlAtEnd([text[0]], text[1..]);
      OnlyReappears(text[1..], v, i - 1);
    } else {
      SomeMatch(text, v);
      var k := FirstOf(text, v);
      assert text[0..] == text;
      PassFirst(text, v, k);
      BeforeMatch(text, v, k);
    }
  }

  lemma {:induction false} AfterMatch(y: string, v: string, i: nat)
    requires v != "" && !HasUrl(v + y) && !HasUrl(y) && OccursAt(MARKER + Pass(y, v), v, i)
    ensures Reappears(v)
    decreases |y|, 1
  {
    hide Pass, FirstMatch, HasUrl, Continues;
    var rest := Pass(y, v);
    if i < |MARKER| {
      Straddles(MARKER, rest, v, i);
      assert v == (MARKER + rest)[i..i + |v|];
      assert Remainder(v, |MARKER| - i) <= rest by {
        if |v| > |MARKER| - i {
          assert v[|MARKER| - i..] == rest[..|v| - (|MARKER| - i)];
        }
      }
      MustContinue(v, y, Remainder(v, |MARKER| - i));
    } else {
      assert (MARKER + rest)[i..i + |v|] == rest[i - |MARKER|..i - |MARKER| + |v|];
      OnlyReappears(y, v, i - |MARKER|);
    }
  }

  lemma BeforeMatch(text: string, v: string, k: nat)
    requires v != "" && k > 0 && !HasUrl(text) && FirstMatch(text, v, k) && !(v <= text)
    requires OccursAt(text[..k] + MARKER + Pass(text[k + |v|..], v), v, 0)
    ensures Reappears(v)
  {
    hide Pass, HasUrl, Continues, Compatible;
    var head, tail := text[..k], text[k + |v|..];
    HeadMatches(text, v, k);
    hide FirstMatch;
    assert text[0..] == text;
    if |v| <= k {
      PrefixIsAhead(text, v, k, MARKER + Pass(tail, v));
    } else {
      assert v <= head + (MARKER + Pass(tail, v));
      Divided(v, head, MARKER + Pass(tail, v));
      MarkerCarries(v[k..], Pass(tail, v));
      NoUrlAtStart(head + v, tail);
      assert text == head + (v + tail);
      NoUrlAtEnd(head, v + tail);
      MustContinue(v, tail, Remainder(v[k..], |MARKER|));
    }
  }

  lemma BracketIn(x: string, k: nat)
    requires k < |x| && (x[k] == '[' || x[k] == ']')
    ensures !BracketFree(x)
  {
  }

  lemma LeakAfterMarker(v: string, k: nat) returns (text: string)
    requires v != "" && k < |MARKER| && Compatible(v, MARKER[k..]) && Continues(v, Remainder(v, |MARKER| - k))
    ensures !HasUrl(text) && Contains(Pass(text, v), v)
  {
    hide Pass, HasUrl, Continues, BracketFree;
    if |v| > |MARKER| - k {
      assert v[|MARKER| - k - 1] == MARKER[k..][|MARKER| - k - 1] == ']';
      BracketIn(v, |MARKER| - k - 1);
    }
    var y := Follow(v, Remainder(v, |MARKER| - k));
    text := v + y;
    PassSteps(text, v);
    assert text[|v|..] == y;
    StraddlesBack(v, k, Pass(y, v));
    hide OccursAt, Compatible;
  }

  lemma StraddlesBack(v: string, k: nat, rest: string)
    requires v != "" && k < |MARKER| && Compatible(v, MARKER[k..]) && Remainder(v, |MARKER| - k) <= rest
    ensures OccursAt(MARKER + rest, v, k)
  {
    var out := MARKER + rest;
    assert out[k..] == MARKER[k..] + rest;
    assert v <= MARKER[k..] + rest;
    assert out[k..][..|v|] == out[k..k + |v|];
  }

  lemma LeakBeforeMarker(v: string, k: nat) returns (text: string)
    requires 0 < k < |v| && Compatible(v[k..], MARKER) && FirstMatch(v[..k] + v, v, k)
    requires !HasUrl(v[..k] + v) && Continues(v, Remainder(v[k..], |MARKER|))
    ensures !HasUrl(text) && Contains(Pass(text, v), v)
  {
    hide Pass, HasUrl, Continues, BracketFree, FirstMatch;
    assert v[k] == v[k..][0] == '[';
    BracketIn(v, k);
    var y := Follow(v, Remainder(v[k..], |MARKER|));
    text := v[..k] + v + y;
    NoUrlAcross(v[..k], v, y);
    MatchBefore(v[..k], y, v);
    PassFirst(text, v, k);
    HeadCarries(v[..k], v[k..], Pass(y, v));
    assert v == v[..k] + v[k..];
    assert OccursAt(Pass(text, v), v, 0);
  }

  lemma SomeUrlFreeLeak(v: string) returns (text: string)
    requires v != "" && Reappears(v)
    ensures !HasUrl(text) && Contains(Pass(text, v), v)
  {
    hide Pass, FirstMatch, Compatible, HasUrl, Continues;
    if k :| 0 <= k < |MARKER| && Compatible(v, MARKER[k..]) && Continues(v, Remainder(v, |MARKER| - k)) {
      text := LeakAfterMarker(v, k);
    } else {
      var k :| 0 < k < |v| && Compatible(v[k..], MARKER) && FirstMatch(v[..k] + v, v, k)
        && !HasUrl(v[..k] + v) && Continues(v, Remainder(v[k..], |MARKER|));
      text := LeakBeforeMarker(v, k);
    }
  }

  lemma RedactedIsPass(text: string, v: string)
    requires v != ""
    ensures Redacted(text, [v]) == Pass(ReplaceUrls(text), v)
  {
    assert [v][1..] == [];
    assert RedactValues(Pass(ReplaceUrls(text), v), []) == Pass(ReplaceUrls(text), v);
  }

  /** Without a colon in it, no URL keeps a value from coming back. */
  lemma NoColonReappears(v: string)
    requires ':' !in v
    ensures Reappears(v) <==> PutBack(v)
  {
    hide FirstMatch, Compatible, HasUrl;
    forall x, y | (forall c :: c in x ==> c in v) && forall c :: c in y ==> c in v ensures !HasUrl(x + y) {
      NoColonNoUrl(x + y);
    }
    forall x | forall c :: c in x ==> c in v ensures Continues(v, x) {
    }
  }

  /** The whole redaction hides a value in every text exactly when it cannot come back into a text without URLs; the
      only difference to the value's own pass is what a URL can hide. */
  lemma OneValueHidingIsExact(v: string)
    requires v != ""
    ensures (forall text :: Hidden(Redacted(text, [v]), [v])) <==> !Reappears(v)
    ensures Reappears(v) ==> PutBack(v)
    ensures ':' !in v ==> (Reappears(v) <==> PutBack(v))
  {
    hide Pass, Contains, Redacted, ReplaceUrls, HasUrl, FirstMatch, Compatible, Continues;
    if Reappears(v) {
      var text := SomeUrlFreeLeak(v);
      NoUrlToReplace(text);
      RedactedIsPass(text, v);
      assert !Hidden(Redacted(text, [v]), [v]);
    } else {
      forall text ensures Hidden(Redacted(text, [v]), [v]) {
        RedactedIsPass(text, v);
        UrlsGone(text);
        if Contains(Pass(ReplaceUrls(text), v), v) {
          FoundReappears(ReplaceUrls(text), v);
        }
      }
    }
    if ':' !in v {
      NoColonReappears(v);
    }
  }

  lemma FoundReappears(text: string, v: string)
    requires v != "" && !HasUrl(text) && Contains(Pass(text, v), v)
    ensures Reappears(v)
  {
    hide Pass, HasUrl, Reappears;
    var i :| 0 <= i <= |Pass(text, v)| && OccursAt(Pass(text, v), v, i);
    OnlyReappears(text, v, i);
  }

  /** A URL can hide what the pass alone would put back: behind the bracket of a marker, `]postgres://` could come back
      only where its own scheme is followed by more, which is then a URL. */
  lemma UrlHides()
    ensures PutBack("]postgres://") && !Reappears("]postgres://")
  {
    var v, rest := "]postgres://", "postgres://";
    assert MARKER[9..] == "]" && v[1..] == rest && v[0] == ']';
    assert Compatible(v, MARKER[9..]);
    forall k | 0 <= k < |MARKER| && Compatible(v, MARKER[k..]) ensures k == 9 {
      assert MARKER[k..][0] == MARKER[k];
    }
    forall k | 0 < k < |v| ensures !Compatible(v[k..], MARKER) {
      assert v[k..][0] == v[k] != '[';
    }
    forall m | 0 <= m < |rest| ensures !Compatible(rest[m..], MARKER) {
      assert rest[m..][0] == rest[m] != '[';
    }
    hide Compatible, FirstMatch;
    DoubleScheme(v, rest);
  }

  lemma DoubleScheme(v: string, rest: string)
    requires rest == "postgres://" && v == "]" + rest
    ensures HasUrl(v + rest)
  {
    var text := v + rest;
    assert text[1..] == rest + rest;
    assert text[1..][8] == ':';
    UrlMeans(text, 1);
    hide UrlLength, UrlRun;
    assert UrlAt(text, 1);
  }

  /** Not being clear of the marker is not enough to be put back: `[[` can end in a marker's bracket, but the two
      brackets before it are replaced first. */
  lemma DoubleBracketIsHidden()
    ensures !ClearOf("[[", MARKER) && !PutBack("[[")
  {
    var v := "[[";
    assert v[1..] == "[" && "[" <= MARKER;
    assert Compatible(v[1..], MARKER);
    forall k | 0 <= k < |MARKER| ensures !Compatible(v, MARKER[k..]) {
      assert MARKER[k..][0] == MARKER[k] && (k > 0 ==> MARKER[k] != '[');
      assert k < 9 ==> MARKER[k..][1] == MARKER[k + 1] != '[';
    }
    assert v <= (v[..1] + v)[0..];
  }
}
