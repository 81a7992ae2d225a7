/** What a redaction does to a text, told without the scan: which characters go, and that all others stay. */
module RedactionText {
  import opened Redaction
  import opened RedactionExact
  import Domain
  import Text

  // ---------- URLs ----------

  /** A scheme of n characters stands at i, in letters of either case. */
  predicate SchemeAt(text: string, i: nat, n: nat) {
    && i <= |text|
    && ((n == 13 && FoldedPrefix("postgresql://", text[i..])) || (n == 11 && FoldedPrefix("postgres://", text[i..])))
  }

  /** A scheme stands at i, and a character that a URL may hold follows it. */
  predicate UrlBegins(text: string, i: nat) {
    exists n: nat :: SchemeAt(text, i, n) && i + n < |text| && UrlChar(text[i + n])
  }

  /** A scheme, and then one or more characters that a URL may hold. */
  predicate IsUrl(u: string) {
    exists n: nat :: SchemeAt(u, 0, n) && n < |u| && forall k :: n <= k < |u| ==> UrlChar(u[k])
  }

  predicate EndsUrl(rest: string) {
    rest == "" || !UrlChar(rest[0])
  }

  lemma BeginsIsAt(text: string, i: nat)
    requires i <= |text|
    ensures UrlBegins(text, i) <==> UrlAt(text, i)
  {
    UrlMeans(text, i);
    var s := SchemeLength(text[i..]);
    hide UrlLength, UrlAt;
    if s > 0 {
      assert SchemeAt(text, i, s);
    }
    forall n: nat | SchemeAt(text, i, n) ensures n == s {
      OneScheme(text[i..], n);
    }
  }

  lemma OneScheme(text: string, n: nat)
    requires SchemeAt(text, 0, n)
    ensures n == SchemeLength(text)
  {
    assert text[0..] == text;
    assert FoldedPrefix("postgresql://", text) ==> Folds(text[8], 'q');
    assert FoldedPrefix("postgres://", text) ==> Folds(text[8], ':');
  }

  lemma {:induction false} SkipsPrefix(a: string, rest: string, len: Matcher, marker: string)
    requires forall i :: 0 <= i < |a| ==> !Matches(len, (a + rest)[i..])
    ensures Replace(a + rest, len, marker) == a + Replace(rest, len, marker)
    decreases |a|
  {
    var text := a + rest;
    if a == "" {
      assert text == rest;
    } else {
      assert text[0..] == text && text[1..] == a[1..] + rest;
      forall i | 0 <= i < |a[1..]| ensures !Matches(len, (a[1..] + rest)[i..]) {
        assert (a[1..] + rest)[i..] == text[i + 1..];
      }
      SkipsPrefix(a[1..], rest, len, marker);
      assert [text[0]] + (a[1..] + Replace(rest, len, marker)) == a + Replace(rest, len, marker);
    }
  }

  lemma {:induction false} RunIsMaximal(run: string, rest: string)
    requires (forall k :: 0 <= k < |run| ==> UrlChar(run[k])) && EndsUrl(rest)
    ensures UrlRun(run + rest) == |run|
    decreases |run|
  {
    var text := run + rest;
    if run == "" {
      assert text == rest;
    } else {
      assert text[1..] == run[1..] + rest && text[0] == run[0];
      RunIsMaximal(run[1..], rest);
    }
  }

  lemma UrlIsWhole(u: string, rest: string)
    requires IsUrl(u) && EndsUrl(rest)
    ensures u != "" && UrlLength(u + rest) == |u| && (u + rest)[|u|..] == rest
  {
    var n: nat :| SchemeAt(u, 0, n) && n < |u| && forall k :: n <= k < |u| ==> UrlChar(u[k]);
    assert u[0..] == u;
    OneScheme(u, n);
    hide FoldedPrefix;
    SchemeShape(u);
    var text := u + rest;
    assert u[..n] <= text;
    assert text[n..] == u[n..] + rest;
    hide SchemeLength;
    RunIsMaximal(u[n..], rest);
  }

  /** A URL goes as a whole, from its scheme to the last character it may hold, and the text around it stays. */
  lemma UrlIsRemovedWhole(a: string, u: string, b: string)
    requires IsUrl(u) && EndsUrl(b) && forall i :: 0 <= i < |a| ==> !UrlBegins(a + u + b, i)
    ensures Redacted(a + u + b, []) == a + "[REDACTED_DATABASE_URL]" + Redacted(b, [])
  {
    var text := a + u + b;
    assert text == a + (u + b);
    hide UrlBegins, UrlLength;
    forall i | 0 <= i < |a| ensures !Matches(UrlLength, text[i..]) {
      BeginsIsAt(text, i);
    }
    SkipsPrefix(a, u + b, UrlLength, URL_MARKER);
    UrlIsWhole(u, b);
    assert Replace(u + b, UrlLength, URL_MARKER) == URL_MARKER + Replace(b, UrlLength, URL_MARKER);
    assert a + (URL_MARKER + ReplaceUrls(b)) == a + URL_MARKER + ReplaceUrls(b);
  }

  /** A text in which no URL begins stays as it is. */
  lemma NoUrlStays(text: string)
    requires forall i :: 0 <= i < |text| ==> !UrlBegins(text, i)
    ensures Redacted(text, []) == text
  {
    forall i | 0 <= i <= |text| ensures !UrlAt(text, i) {
      BeginsIsAt(text, i);
    }
    NoUrlToReplace(text);
  }

  lemma NoLetterNoUrl(text: string, i: nat)
    requires i < |text| && text[i] != 'p' && text[i] != 'P'
    ensures !UrlBegins(text, i)
  {
    assert text[i..][0] == text[i];
    assert forall n: nat :: !SchemeAt(text, i, n);
  }

  lemma ExampleUrl(u: string)
    requires u == "POSTGRES://a:pw@db"
    ensures IsUrl(u)
  {
    assert u[0..] == u;
    assert FoldedPrefix("postgres://", u);
    assert SchemeAt(u, 0, 11) && forall k :: 11 <= k < |u| ==> UrlChar(u[k]);
  }

  lemma NoUrlInFront(a: string, rest: string)
    requires 'p' !in a && 'P' !in a
    ensures forall i :: 0 <= i < |a| ==> !UrlBegins(a + rest, i)
  {
    hide UrlBegins;
    forall i | 0 <= i < |a| ensures !UrlBegins(a + rest, i) {
      assert (a + rest)[i] == a[i];
      NoLetterNoUrl(a + rest, i);
    }
  }

  /** A worked example: quotes end a URL, letters of either case begin one, and the password goes with it. */
  lemma PasswordGoes()
    ensures Redacted("to \"" + "POSTGRES://a:pw@db" + "\" failed", [])
      == "to \"" + "[REDACTED_DATABASE_URL]" + "\" failed"
  {
    var a, u, b := "to \"", "POSTGRES://a:pw@db", "\" failed";
    assert EndsUrl(b);
    ExampleUrl(u);
    hide *;
    NoUrlInFront(a, u + b);
    assert a + u + b == a + (u + b);
    NoUrlInFront(b, "");
    assert b + "" == b;
    UrlIsRemovedWhole(a, u, b);
    NoUrlStays(b);
  }

  // ---------- values ----------

  /** The text cut at the occurrences of v, each the first one after the last. */
  predicate CutAt(text: string, v: string, pieces: seq<string>) {
    && pieces != [] && text == Text.Join(pieces, v)
    && (forall i :: 0 <= i < |pieces| - 1 ==> FirstMatch(pieces[i] + v, v, |pieces[i]|))
    && !Contains(pieces[|pieces| - 1], v)
  }

  lemma {:induction false} PassCuts(text: string, v: string) returns (pieces: seq<string>)
    requires v != ""
    ensures CutAt(text, v, pieces) && Pass(text, v) == Text.Join(pieces, MARKER)
    decreases |text|
  {
    hide Pass, FirstMatch;
    if exists j :: 0 <= j <= |text| && v <= text[j..] {
      var k := FirstOf(text, v);
      PassFirst(text, v, k);
      HeadMatches(text, v, k);
      var rest := PassCuts(text[k + |v|..], v);
      pieces := [text[..k]] + rest;
      assert pieces[1..] == rest;
      assert pieces[|pieces| - 1] == rest[|rest| - 1];
    } else {
      NoMatchStays(text, v);
      pieces := [text];
      LiteralMatches(text, v);
    }
  }

  lemma {:induction false} ValuesAppend(text: string, values: seq<string>, v: string)
    ensures RedactValues(text, values + [v])
      == if v == "" then RedactValues(text, values) else Pass(RedactValues(text, values), v)
    decreases values
  {
    if values == [] {
      assert ([] + [v])[1..] == [] && ([] + [v])[0] == v;
      var next := if v == "" then text else Pass(text, v);
      assert RedactValues(next, []) == next;
    } else {
      assert (values + [v])[1..] == values[1..] + [v];
      ValuesAppend(if values[0] == "" then text else Replace(text, Literal(values[0]), MARKER), values[1..], v);
    }
  }

  /** The values go in list order: the last one's occurrences are those in what the others leave, cut out from left to
      right; an empty value does nothing. */
  lemma ValueIsRemoved(text: string, values: seq<string>, v: string) returns (pieces: seq<string>)
    ensures v == "" ==> Redacted(text, values + [v]) == Redacted(text, values)
    ensures v != "" ==>
      CutAt(Redacted(text, values), v, pieces) && Redacted(text, values + [v]) == Text.Join(pieces, "[REDACTED]")
  {
    hide Pass, CutAt;
    ValuesAppend(ReplaceUrls(text), values, v);
    if v == "" {
      pieces := [];
    } else {
      pieces := PassCuts(Redacted(text, values), v);
    }
  }

  // ---------- whole reports ----------

  /** Nothing in the text is to be redacted. */
  ghost predicate Plain(text: string, values: seq<string>) {
    Redacted(text, values) == text
  }

  lemma CleanIsPlain(text: string, values: seq<string>)
    requires Clean(text, values)
    ensures Plain(text, values)
  {
    NoUrlToReplace(text);
    NothingHidden(text, values);
  }

  /** A report whose texts are clean is published as it is: each text in its own field, everything else kept, and the
      list of values itself withheld. */
  lemma CleanReportIsKept(report: Domain.Report, out: Domain.Report)
    requires Published(report, out)
    requires var vs := report.sensitiveValues;
      && Clean(report.summary, vs) && Clean(report.server.product, vs) && Clean(report.server.version, vs)
      && (forall f :: f in report.findings ==> Clean(f.target, vs) && Clean(f.message, vs) && Clean(f.detail, vs))
      && forall o :: o in report.operations ==> Clean(o.table, vs) && Clean(o.template, vs) && Clean(o.error, vs)
    ensures out == report.(sensitiveValues := [])
  {
    var vs := report.sensitiveValues;
    forall text | Clean(text, vs) ensures Redacted(text, vs) == text {
      CleanIsPlain(text, vs);
    }
    hide Clean, Redacted;
    forall i | 0 <= i < |out.findings| ensures out.findings[i] == report.findings[i] {
      assert report.findings[i] in report.findings;
    }
    forall i | 0 <= i < |out.operations| ensures out.operations[i] == report.operations[i] {
      assert report.operations[i] in report.operations;
    }
    assert out.findings == report.findings && out.operations == report.operations;
  }
}
