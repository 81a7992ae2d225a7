/** Fixture keys (internal/profile/validate.go): the printed key columns of a row, joined by NULs, and exactly when
    they tell rows apart. */
module FixtureKeys {
  import opened Wrappers
  import opened Text
  import opened Domain

  /** `%T:%v`. */
  function Part(v: Value): string {
    match v
    case Null => "<nil>:<nil>"
    case Datum(typeName, text) => typeName + ":" + text
  }

  function KeyParts(row: Row, columns: seq<string>): seq<string>
    requires forall c :: c in columns ==> c in row
  {
    seq(|columns|, i requires 0 <= i < |columns| => Part(row[columns[i]]))
  }

  /** The key of a row, unless a column is missing. */
  function KeyOf(row: Row, columns: seq<string>): Option<string> {
    if forall c :: c in columns ==> c in row then Some(Join(KeyParts(row, columns), "\0")) else None
  }

  method FixtureKey(row: Row, columns: seq<string>) returns (key: Option<string>)
    ensures key == KeyOf(row, columns)
  {
    var parts := new string[|columns|](_ => "");
    for i := 0 to |columns|
      invariant forall k :: 0 <= k < i ==> columns[k] in row && parts[k] == Part(row[columns[k]])
    {
      if columns[i] !in row {
        return None;
      }
      parts[i] := Part(row[columns[i]]);
    }
    assert parts[..] == KeyParts(row, columns);
    return Some(Join(parts[..], "\0"));
  }

  /** A value as `%T` can print it. */
  predicate Typed(v: Value) {
    v.Datum? ==> IsTypeName(v.typeName)
  }

  const NIL := "<nil>:<nil>"

  lemma PartIsExact(a: Value, b: Value)
    requires Typed(a) && Typed(b)
    ensures Part(a) == Part(b) <==> a == b
  {
    ColonSplits(TypeName(a), TextOf(a), TypeName(b), TextOf(b));
    assert Part(a) == TypeName(a) + ":" + TextOf(a) && Part(b) == TypeName(b) + ":" + TextOf(b);
  }

  function TypeName(v: Value): string {
    if v.Datum? then v.typeName else "<nil>"
  }

  function TextOf(v: Value): string {
    if v.Datum? then v.text else "<nil>"
  }

  /** The first colon ends the type name. */
  lemma ColonSplits(name: string, text: string, name': string, text': string)
    requires ':' !in name && ':' !in name'
    ensures name + ":" + text == name' + ":" + text' <==> name == name' && text == text'
  {
    var s, s' := name + ":" + text, name' + ":" + text';
    assert s[|name|] == ':' == s'[|name'|];
    if |name| < |name'| {
      assert s'[|name|] == name'[|name|];
    } else if |name'| < |name| {
      assert s[|name'|] == name[|name'|];
    } else {
      assert s[..|name|] == name && s'[..|name|] == name' && s[|name| + 1..] == text && s'[|name| + 1..] == text';
    }
  }

  /** The row has every key column, with a printable value. */
  predicate HasKey(row: Row, columns: seq<string>) {
    forall c :: c in columns ==> c in row && Typed(row[c])
  }

  predicate SameValues(a: Row, b: Row, columns: seq<string>)
    requires HasKey(a, columns) && HasKey(b, columns)
  {
    forall c :: c in columns ==> a[c] == b[c]
  }

  lemma PartsAreExact(a: Row, b: Row, columns: seq<string>)
    requires HasKey(a, columns) && HasKey(b, columns)
    ensures KeyParts(a, columns) == KeyParts(b, columns) <==> SameValues(a, b, columns)
  {
    var x, y := KeyParts(a, columns), KeyParts(b, columns);
    hide Part;
    forall i | 0 <= i < |columns| ensures x[i] == y[i] <==> a[columns[i]] == b[columns[i]] {
      PartIsExact(a[columns[i]], b[columns[i]]);
    }
    if x == y {
      forall c | c in columns ensures a[c] == b[c] {
        var i :| 0 <= i < |columns| && columns[i] == c;
        assert x[i] == y[i];
      }
    }
  }

  // ---------- when another row has the same key ----------

  /** The text `type:value` of some value. */
  ghost predicate IsDatumPart(q: string) {
    exists name: string, text: string :: IsTypeName(name) && q == name + ":" + text
  }

  ghost predicate IsPart(q: string) {
    q == NIL || IsDatumPart(q)
  }

  /** Column j's text holds a NUL after which another part could begin, and column i, which is not the last, could
      take in the part after it; the two must not be the same place, where nil can take in nothing. */
  ghost predicate Rearranges(row: Row, columns: seq<string>, i: int, j: int, before: string, q: string)
    requires HasKey(row, columns)
  {
    && 0 <= i < |columns| - 1 && row[columns[i]].Datum?
    && 0 <= j < |columns| && row[columns[j]].Datum? && row[columns[j]].text == before + "\0" + q
    && IsPart(q) && (i == j ==> q != NIL)
  }

  ghost predicate Ambiguous(row: Row, columns: seq<string>)
    requires HasKey(row, columns)
  {
    exists i, j, before, q :: Rearranges(row, columns, i, j, before, q)
  }

  predicate Distinct(columns: seq<string>) {
    forall i, j :: 0 <= i < j < |columns| ==> columns[i] != columns[j]
  }

  // ---------- where the parts of a joined text begin ----------

  function Start(x: seq<string>, i: nat): nat
    requires i <= |x|
  {
    if i == 0 then 0 else Start(x, i - 1) + |x[i - 1]| + 1
  }

  lemma {:induction false} StartShift(x: seq<string>, i: nat)
    requires 0 < i <= |x|
    ensures Start(x, i) == |x[0]| + 1 + Start(x[1..], i - 1)
  {
    if i > 1 {
      StartShift(x, i - 1);
    }
  }

  lemma {:induction false} StartIncreases(x: seq<string>, i: nat, j: nat)
    requires i < j <= |x|
    ensures Start(x, i) + |x[i]| + 1 <= Start(x, j)
    decreases j - i
  {
    if i < j - 1 {
      StartIncreases(x, i, j - 1);
    }
  }

  /** Part i stands at its start, and a NUL or the end follows it. */
  lemma {:induction false} JoinAt(x: seq<string>, i: nat)
    requires i < |x|
    ensures var s, o := Join(x, "\0"), Start(x, i);
      && o + |x[i]| <= |s| && s[o..o + |x[i]|] == x[i]
      && (if i == |x| - 1 then o + |x[i]| == |s| else o + |x[i]| < |s| && s[o + |x[i]|] == '\0')
    decreases |x|
  {
    if |x| > 1 && i > 0 {
      JoinAt(x[1..], i - 1);
      StartShift(x, i);
    }
  }

  ghost function StartsUpTo(x: seq<string>, n: nat): set<int>
    requires n <= |x|
  {
    if n == 0 then {} else StartsUpTo(x, n - 1) + {Start(x, n - 1)}
  }

  ghost predicate StartsOneOf(x: seq<string>, n: nat, v: int)
    requires n <= |x|
  {
    exists i :: 0 <= i < n && v == Start(x, i)
  }

  lemma {:induction false} StartsAre(x: seq<string>, n: nat)
    requires n <= |x|
    ensures |StartsUpTo(x, n)| == n
    ensures forall v :: v in StartsUpTo(x, n) <==> StartsOneOf(x, n, v)
  {
    hide Start;
    if n > 0 {
      StartsAre(x, n - 1);
      var last := Start(x, n - 1);
      forall i | 0 <= i < n - 1 ensures Start(x, i) < last {
        StartIncreases(x, i, n - 1);
      }
      assert !StartsOneOf(x, n - 1, last);
      forall v ensures v in StartsUpTo(x, n) <==> StartsOneOf(x, n, v) {
        if StartsOneOf(x, n - 1, v) {
          var i :| 0 <= i < n - 1 && v == Start(x, i);
        }
      }
    }
  }

  lemma StartIsOne(x: seq<string>, i: nat)
    requires i < |x|
    ensures Start(x, i) in Starts(x)
  {
    hide Start;
    StartsAre(x, |x|);
    assert StartsOneOf(x, |x|, Start(x, i));
  }

  lemma OneStarts(x: seq<string>, v: int) returns (i: nat)
    requires v in Starts(x)
    ensures i < |x| && v == Start(x, i)
  {
    hide Start;
    StartsAre(x, |x|);
    assert StartsOneOf(x, |x|, v);
    i :| 0 <= i < |x| && v == Start(x, i);
  }

  ghost function Starts(x: seq<string>): set<int> {
    StartsUpTo(x, |x|)
  }

  /** The first different parts begin together and end apart, so the next part of the shorter begins where none of the
      other's does. */
  lemma FirstDifference(x: seq<string>, y: seq<string>) returns (i: nat)
    requires |x| == |y| && x != y
    ensures i < |x| && x[..i] == y[..i] && x[i] != y[i]
  {
    i := 0;
    while x[i] == y[i]
      invariant i < |x| && x[..i] == y[..i] && exists k :: i <= k < |x| && x[k] != y[k]
      decreases |x| - i
    {
      i := i + 1;
    }
  }

  lemma {:induction false} SameStarts(x: seq<string>, y: seq<string>, i: nat)
    requires i <= |x| && i <= |y| && x[..i] == y[..i]
    ensures Start(x, i) == Start(y, i)
  {
    if i > 0 {
      assert x[..i][..i - 1] == x[..i - 1] && y[..i][..i - 1] == y[..i - 1] && x[..i][i - 1] == y[..i][i - 1];
      SameStarts(x, y, i - 1);
    }
  }

  lemma ShorterStartsApart(x: seq<string>, y: seq<string>, i: nat)
    requires |x| == |y| && Join(x, "\0") == Join(y, "\0")
    requires i < |x| && x[..i] == y[..i] && |x[i]| < |y[i]|
    ensures Starts(x) != Starts(y)
  {
    SameStarts(x, y, i);
    JoinAt(x, i);
    JoinAt(y, i);
    assert i < |x| - 1 && Start(x, i + 1) == Start(x, i) + |x[i]| + 1;
    hide Start, StartsUpTo;
    StartIsOne(x, i + 1);
    if Start(x, i + 1) in Starts(y) {
      var k := OneStarts(y, Start(x, i + 1));
      if k < i {
        StartIncreases(y, k, i);
      } else if i < k {
        StartIncreases(y, i, k);
      }
    }
  }

  lemma DifferentStarts(x: seq<string>, y: seq<string>)
    requires |x| == |y| && x != y && Join(x, "\0") == Join(y, "\0")
    ensures Starts(x) != Starts(y) && |Starts(x)| == |Starts(y)|
  {
    StartsAre(x, |x|);
    StartsAre(y, |y|);
    var i := FirstDifference(x, y);
    SameStarts(x, y, i);
    JoinAt(x, i);
    JoinAt(y, i);
    hide Start, StartsUpTo, StartsOneOf;
    if |x[i]| < |y[i]| {
      ShorterStartsApart(x, y, i);
    } else if |y[i]| < |x[i]| {
      ShorterStartsApart(y, x, i);
    }
  }

  lemma SubsetOfItsSize(a: set<int>, b: set<int>)
    requires a <= b && |a| == |b|
    ensures a == b
  {
    assert b == a + (b - a);
    assert |b| == |a| + |b - a|;
  }

  lemma AllInside(x: seq<string>, starts: set<int>)
    requires |Starts(x)| == |starts| && forall k :: 0 <= k < |x| ==> Start(x, k) in starts
    ensures Starts(x) == starts
  {
    hide Start;
    StartsAre(x, |x|);
    forall v | v in Starts(x) ensures v in starts {
      assert StartsOneOf(x, |x|, v);
    }
    SubsetOfItsSize(Starts(x), starts);
  }

  /** Some part of x begins outside another set of the same size. */
  lemma SomeOutside(x: seq<string>, starts: set<int>)
    requires Starts(x) != starts && |Starts(x)| == |starts|
    ensures exists k :: 0 <= k < |x| && Start(x, k) !in starts
  {
    hide Start, Starts;
    if forall k :: 0 <= k < |x| ==> Start(x, k) in starts {
      AllInside(x, starts);
    }
  }

  /** The first part of x that does not begin with a part of y. */
  lemma FirstOutside(x: seq<string>, starts: set<int>) returns (i: nat)
    requires exists k :: 0 <= k < |x| && Start(x, k) !in starts
    ensures i < |x| && Start(x, i) !in starts && forall k :: 0 <= k < i ==> Start(x, k) in starts
  {
    i := 0;
    while Start(x, i) in starts
      invariant i < |x| && forall k :: 0 <= k < i ==> Start(x, k) in starts
      decreases |x| - i
    {
      i := i + 1;
    }
  }

  lemma LastOutside(y: seq<string>, starts: set<int>) returns (k: nat)
    requires exists i :: 0 <= i < |y| && Start(y, i) !in starts
    ensures k < |y| && Start(y, k) !in starts && forall i :: k < i < |y| ==> Start(y, i) in starts
  {
    k := |y| - 1;
    while Start(y, k) in starts
      invariant k < |y| && forall i :: k < i < |y| ==> Start(y, i) in starts
      invariant exists i :: 0 <= i <= k && Start(y, i) !in starts
      decreases k
    {
      k := k - 1;
    }
  }

  /** The part that a place lies in. */
  lemma PartAround(x: seq<string>, v: nat) returns (j: nat)
    requires x != []
    ensures j < |x| && Start(x, j) <= v && (j < |x| - 1 ==> v < Start(x, j + 1))
  {
    j := 0;
    while j < |x| - 1 && Start(x, j + 1) <= v
      invariant j < |x| && Start(x, j) <= v
    {
      j := j + 1;
    }
  }

  // ---------- a different row with the same key is a rearrangement ----------

  predicate NoNul(s: string) {
    '\0' !in s
  }

  lemma NilIsFlat()
    ensures NoNul(NIL) && |NIL| == 11 && NIL[5] == ':' && NIL[..5] == "<nil>"
      && forall i :: 0 <= i < 5 ==> NIL[i] != ':'
  {
  }

  lemma FirstColon(s: string, o: nat, name: string)
    requires ':' !in name && o + |name| < |s| && s[o..o + |name|] == name && s[o + |name|] == ':'
    requires o + 5 < |s| && s[o..o + 5] == "<nil>" && s[o + 5] == ':'
    ensures name == "<nil>"
  {
    forall k | o <= k < o + 5 ensures s[k] != ':' {
      assert s[k] == s[o..o + 5][k - o];
    }
    forall k | o <= k < o + |name| ensures s[k] != ':' {
      assert s[k] == s[o..o + |name|][k - o];
    }
  }

  /** Where a text goes on with nil and then a NUL or its end, the only part that can begin is nil. */
  lemma NilForces(s: string, o: nat, y: string)
    requires IsPart(y) && o + |y| <= |s| && s[o..o + |y|] == y
    requires o + 11 <= |s| && s[o..o + 11] == NIL
    ensures y == NIL
  {
    if IsDatumPart(y) {
      var name: string, text: string :| IsTypeName(name) && y == name + ":" + text;
      assert s[o + |name|] == y[|name|] == ':' && s[o..o + |name|] == y[..|name|] == name;
      assert s[o..o + 5] == s[o..o + 11][..5] && s[o + 5] == s[o..o + 11][5];
      NilIsFlat();
      FirstColon(s, o, name);
    }
  }

  /** The beginning of a part, through its colon, runs up to no NUL. */
  lemma RunsTo(s: string, v: nat, run: string, e: nat)
    requires NoNul(run) && v + |run| <= |s| && s[v..v + |run|] == run
    requires v <= e <= |s| && (e == |s| || s[e] == '\0')
    ensures v + |run| <= e
  {
    forall k | v <= k < v + |run| ensures s[k] != '\0' {
      assert s[k] == s[v..v + |run|][k - v];
    }
  }

  /** A part cut off at a NUL of the joined text, or at its end, is a part. */
  lemma CutIsPart(s: string, v: nat, y: string, e: nat)
    requires IsDatumPart(y) && v + |y| <= |s| && s[v..v + |y|] == y
    requires v <= e <= |s| && (e == |s| || s[e] == '\0')
    ensures IsDatumPart(s[v..e])
  {
    var name: string, text: string :| IsTypeName(name) && y == name + ":" + text;
    var run := name + ":";
    assert s[v..v + |run|] == y[..|run|] == run;
    RunsTo(s, v, run, e);
    assert s[v..e] == s[v..v + |run|] + s[v + |run|..e];
  }

  /** A part of y that begins inside part j of x: from there to the end of part j is a part too, and it is nil only if
      the part of y is. */
  lemma InnerPart(s: string, v: nat, y: string, e: nat)
    requires IsPart(y) && v + |y| <= |s| && s[v..v + |y|] == y && (v + |y| == |s| || s[v + |y|] == '\0')
    requires v <= e <= |s| && (e == |s| || s[e] == '\0')
    requires y == NIL ==> e <= v + 11
    ensures IsPart(s[v..e]) && (s[v..e] == NIL <==> y == NIL)
  {
    NilIsFlat();
    if y == NIL {
      RunsTo(s, v, NIL, e);
    } else {
      CutIsPart(s, v, y, e);
      if s[v..e] == NIL {
        NilForces(s, v, y);
      }
    }
  }

  /** Two different lists of parts with the same text: y begins a part (k) inside part j of x, and x begins a part (i
      + 1) where y begins none. */
  lemma Overlap(x: seq<string>, y: seq<string>) returns (i: nat, j: nat, k: nat)
    requires |x| == |y| && x != y && Join(x, "\0") == Join(y, "\0")
    ensures i < |x| - 1 && Start(x, i) in Starts(y) && Start(x, i + 1) !in Starts(y)
    ensures k < |y| && Start(y, k) !in Starts(x) && forall n :: k < n < |y| ==> Start(y, n) in Starts(x)
    ensures j < |x| && Start(x, j) < Start(y, k) && (j < |x| - 1 ==> Start(y, k) < Start(x, j + 1))
  {
    hide StartsUpTo;
    DifferentStarts(x, y);
    SomeOutside(x, Starts(y));
    SomeOutside(y, Starts(x));
    var first := FirstOutside(x, Starts(y));
    StartIsOne(x, 0);
    StartIsOne(y, 0);
    assert Start(x, 0) == Start(y, 0) == 0;
    hide Start;
    i := first - 1;
    k := LastOutside(y, Starts(x));
    j := PartAround(x, Start(y, k));
    StartIsOne(x, j);
  }

  lemma PartIsDatum(q: string)
    requires IsPart(q)
    ensures q == NIL || IsDatumPart(q)
  {
  }

  /** Where both begin a part and x's is nil, not its last, both begin the next one together too. */
  lemma NilTogether(x: seq<string>, y: seq<string>, i: nat, n: nat)
    requires Join(x, "\0") == Join(y, "\0") && i < |x| - 1 && n < |y| && IsPart(y[n])
    requires Start(x, i) == Start(y, n) && x[i] == NIL
    ensures n + 1 < |y| && Start(y, n + 1) == Start(x, i + 1)
  {
    hide Start, IsPart, Join;
    NilIsFlat();
    JoinAt(x, i);
    JoinAt(y, n);
    NilForces(Join(y, "\0"), Start(y, n), y[n]);
    NextStart(x, i);
    NextStart(y, n);
  }

  /** Part i of x, after which y begins none, is not nil. */
  lemma MergedIsDatum(x: seq<string>, y: seq<string>, i: nat)
    requires Join(x, "\0") == Join(y, "\0") && i < |x| - 1 && IsPart(x[i]) && forall n :: 0 <= n < |y| ==> IsPart(y[n])
    requires Start(x, i) in Starts(y) && Start(x, i + 1) !in Starts(y)
    ensures IsDatumPart(x[i])
  {
    hide Start, Starts, IsPart, IsDatumPart, Join;
    PartIsDatum(x[i]);
    if x[i] == NIL {
      var n := OneStarts(y, Start(x, i));
      NilTogether(x, y, i, n);
      StartIsOne(y, n + 1);
    }
  }

  lemma NextStart(x: seq<string>, i: nat)
    requires i < |x|
    ensures Start(x, i + 1) == Start(x, i) + |x[i]| + 1
  {
  }

  /** Part k of y begins after a NUL inside part j of x. */
  lemma Inside(x: seq<string>, y: seq<string>, j: nat, k: nat)
    requires Join(x, "\0") == Join(y, "\0") && j < |x| && k < |y|
    requires Start(x, j) < Start(y, k) && (j < |x| - 1 ==> Start(y, k) < Start(x, j + 1))
    ensures var s, v, e := Join(x, "\0"), Start(y, k), Start(x, j) + |x[j]|;
      && v <= e <= |s| && s[v - 1] == '\0'
      && v + |y[k]| <= |s| && s[v..v + |y[k]|] == y[k] && (v + |y[k]| == |s| || s[v + |y[k]|] == '\0')
      && (e == |s| || s[e] == '\0')
      && (k == |y| - 1 ==> v + |y[k]| == |s|) && (j < |x| - 1 ==> e < |s|)
  {
    assert k > 0;
    hide Start, Join;
    JoinAt(x, j);
    JoinAt(y, k);
    JoinAt(y, k - 1);
    NextStart(y, k - 1);
    NextStart(x, j);
  }

  /** From where part k of y begins to the end of part j of x is a part; if it is nil, y begins another right after
      part j. */
  lemma SplitOff(x: seq<string>, y: seq<string>, j: nat, k: nat)
    requires Join(x, "\0") == Join(y, "\0") && forall n :: 0 <= n < |y| ==> IsPart(y[n])
    requires k < |y| && forall n :: k < n < |y| ==> Start(y, n) in Starts(x)
    requires j < |x| && Start(x, j) < Start(y, k) && (j < |x| - 1 ==> Start(y, k) < Start(x, j + 1))
    ensures var s, v, e := Join(x, "\0"), Start(y, k), Start(x, j) + |x[j]|;
      && v <= e <= |s| && s[v - 1] == '\0' && IsPart(s[v..e])
      && (s[v..e] == NIL && j < |x| - 1 ==> Start(x, j + 1) in Starts(y))
  {
    hide Start, Starts, IsPart, IsDatumPart, Join, NoNul;
    Inside(x, y, j, k);
    var s, v, e := Join(x, "\0"), Start(y, k), Start(x, j) + |x[j]|;
    NilIsFlat();
    if y[k] == NIL {
      NextStart(y, k);
      NextStart(x, j);
      RunsTo(s, v, NIL, e);
      if k < |y| - 1 {
        var n := OneStarts(x, Start(y, k + 1));
        EndsBefore(x, j, n);
        StartIsOne(y, k + 1);
      }
      assert e == v + 11;
    }
    InnerPart(s, v, y[k], e);
  }

  lemma EndsBefore(x: seq<string>, j: nat, n: nat)
    requires j < |x| && n < |x| && Start(x, j) < Start(x, n)
    ensures Start(x, j) + |x[j]| + 1 <= Start(x, n)
  {
    hide Start;
    if n < j {
      StartIncreases(x, n, j);
    } else if j < n {
      StartIncreases(x, j, n);
    }
  }

  lemma NilIsNoDatum()
    ensures !IsDatumPart(NIL)
  {
    assert NIL == "<nil>" + ":" + "<nil>";
    forall name: string, text: string | IsTypeName(name) ensures NIL != name + ":" + text {
      ColonSplits("<nil>", "<nil>", name, text);
    }
  }

  lemma TypedIsPart(v: Value)
    requires Typed(v)
    ensures IsPart(Part(v)) && (IsDatumPart(Part(v)) <==> v.Datum?) && (v.Null? <==> Part(v) == NIL)
  {
    NilIsNoDatum();
    match v
    case Null =>
    case Datum(name, text) =>
  }

  lemma TailOfText(name: string, text: string, n: nat)
    requires |name| < n < |name + ":" + text|
    ensures var p, m := name + ":" + text, n - |name| - 1;
      p[n] == text[m] && p[n + 1..] == text[m + 1..] && text == text[..m] + [text[m]] + text[m + 1..]
  {
  }

  /** A NUL in a printed value lies in its text. */
  lemma NulIsInText(v: Value, n: nat)
    requires Typed(v) && n < |Part(v)| && Part(v)[n] == '\0'
    ensures v.Datum? && |v.typeName| < n && v.text == v.text[..n - |v.typeName| - 1] + "\0" + Part(v)[n + 1..]
  {
    NilIsFlat();
    assert forall m :: 0 <= m < |NIL| ==> NIL[m] != '\0';
    if v.Datum? {
      var m := |v.typeName|;
      assert forall i :: 0 <= i < m ==> Part(v)[i] == v.typeName[i] && v.typeName[i] != '\0';
      assert Part(v)[m] == ':';
      TailOfText(v.typeName, v.text, n);
    }
  }

  /** Another row with the same key comes from a rearrangement of this one's parts. */
  lemma SameKeyRearranges(a: Row, b: Row, columns: seq<string>)
    requires HasKey(a, columns) && HasKey(b, columns) && KeyOf(a, columns) == KeyOf(b, columns)
      && !SameValues(a, b, columns)
    ensures Ambiguous(a, columns)
  {
    hide Start, Starts, IsPart, IsDatumPart, Join, Part, KeyParts, SameValues;
    var x, y := KeyParts(a, columns), KeyParts(b, columns);
    PartsAreExact(a, b, columns);
    KeyPartsAre(a, columns);
    KeyPartsAre(b, columns);
    var i, j, k := Overlap(x, y);
    MergedIsDatum(x, y, i);
    SplitOff(x, y, j, k);
    JoinAt(x, j);
    RearrangesAt(a, columns, x, Join(x, "\0"), i, j, Start(x, j), Start(y, k));
  }

  lemma KeyPartsAre(a: Row, columns: seq<string>)
    requires HasKey(a, columns)
    ensures var x := KeyParts(a, columns);
      && |x| == |columns|
      && forall n :: 0 <= n < |x| ==>
          x[n] == Part(a[columns[n]]) && IsPart(x[n]) && (IsDatumPart(x[n]) <==> a[columns[n]].Datum?)
  {
    hide Part, IsPart, IsDatumPart;
    forall n | 0 <= n < |columns|
      ensures IsPart(Part(a[columns[n]])) && (IsDatumPart(Part(a[columns[n]])) <==> a[columns[n]].Datum?)
    {
      TypedIsPart(a[columns[n]]);
    }
  }

  lemma RearrangesAt(a: Row, columns: seq<string>, x: seq<string>, s: string, i: nat, j: nat, o: nat, v: nat)
    requires HasKey(a, columns) && x == KeyParts(a, columns) && i < |x| - 1 && j < |x| && a[columns[i]].Datum?
    requires o < v <= o + |x[j]| <= |s| && s[o..o + |x[j]|] == x[j] && s[v - 1] == '\0' && IsPart(s[v..o + |x[j]|])
    requires i == j ==> s[v..o + |x[j]|] != NIL
    ensures Ambiguous(a, columns)
  {
    var value := a[columns[j]];
    var q := s[v..o + |x[j]|];
    hide IsPart, Part;
    assert x[j] == Part(value) && x[j][v - 1 - o] == s[v - 1] && x[j][v - o..] == q;
    NulIsInText(value, v - 1 - o);
    assert Rearranges(a, columns, i, j, value.text[..v - 1 - o - |value.typeName| - 1], q);
  }

  // ---------- and each rearrangement is another row ----------

  lemma {:induction false} Glue(left: seq<string>, p: string, q: string, right: seq<string>)
    ensures Join(left + [p, q] + right, "\0") == Join(left + [p + "\0" + q] + right, "\0")
  {
    var two, one := left + [p, q] + right, left + [p + "\0" + q] + right;
    if left == [] {
      assert two[1..] == [q] + right && ([q] + right)[1..] == right && one[1..] == right;
      if right != [] {
        assert p + "\0" + (q + "\0" + Join(right, "\0")) == p + "\0" + q + "\0" + Join(right, "\0");
      }
    } else {
      assert two[1..] == left[1..] + [p, q] + right && one[1..] == left[1..] + [p + "\0" + q] + right;
      Glue(left[1..], p, q, right);
    }
  }

  /** The value that prints as a part. */
  ghost function ValueOf(q: string): (v: Value)
    requires IsPart(q)
    ensures Typed(v) && Part(v) == q
  {
    if q == NIL then Null
    else
      var name: string, text: string :| IsTypeName(name) && q == name + ":" + text;
      Datum(name, text)
  }

  ghost predicate AllParts(z: seq<string>) {
    forall n :: 0 <= n < |z| ==> IsPart(z[n])
  }

  lemma TailParts(columns: seq<string>, z: seq<string>)
    requires columns != [] && |z| == |columns| && Distinct(columns) && AllParts(z)
    ensures Distinct(columns[1..]) && AllParts(z[1..]) && IsPart(z[0]) && columns[0] !in columns[1..]
    ensures forall n :: 0 < n < |columns| ==> columns[n] == columns[1..][n - 1] && z[n] == z[1..][n - 1]
    ensures forall c :: c in columns <==> c == columns[0] || c in columns[1..]
  {
    hide IsPart;
    assert columns == [columns[0]] + columns[1..];
  }

  /** The row whose key columns print as the given parts. */
  ghost function RowOf(columns: seq<string>, z: seq<string>): (row: Row)
    requires |z| == |columns| && Distinct(columns) && AllParts(z)
    ensures forall c :: c in row <==> c in columns
    ensures forall n :: 0 <= n < |columns| ==> Typed(row[columns[n]]) && Part(row[columns[n]]) == z[n]
    decreases |columns|
  {
    hide Typed, Part, IsPart;
    if columns == [] then map[]
    else
      TailParts(columns, z);
      var row := RowOf(columns[1..], z[1..])[columns[0] := ValueOf(z[0])];
      row
  }

  /** Parts with the same joined text make a row with the same key. */
  lemma PartsMakeRow(a: Row, columns: seq<string>, z: seq<string>)
    requires HasKey(a, columns) && Distinct(columns) && |z| == |columns| && AllParts(z)
    requires Join(z, "\0") == Join(KeyParts(a, columns), "\0") && z != KeyParts(a, columns)
    ensures var b := RowOf(columns, z);
      HasKey(b, columns) && KeyOf(a, columns) == KeyOf(b, columns) && !SameValues(a, b, columns)
  {
    var b := RowOf(columns, z);
    hide Part, Join, Distinct, AllParts, RowOf;
    forall c | c in columns ensures c in b && Typed(b[c]) {
      var n :| 0 <= n < |columns| && columns[n] == c;
    }
    assert KeyParts(b, columns) == z;
    PartsAreExact(a, b, columns);
  }

  /** Part j split in two, and the part then at m merged with its successor. */
  lemma Rearranged(x: seq<string>, j: nat, h: string, q: string, m: nat) returns (z: seq<string>)
    requires AllParts(x) && j < |x| && x[j] == h + "\0" + q && IsPart(h) && IsPart(q)
    requires m < |x| && IsDatumPart((x[..j] + [h, q] + x[j + 1..])[m])
    ensures |z| == |x| && AllParts(z) && Join(z, "\0") == Join(x, "\0")
    ensures var split := x[..j] + [h, q] + x[j + 1..];
      z == split[..m] + [split[m] + "\0" + split[m + 1]] + split[m + 2..]
  {
    hide Join, IsPart, IsDatumPart;
    var split := x[..j] + [h, q] + x[j + 1..];
    assert x == x[..j] + [h + "\0" + q] + x[j + 1..];
    Glue(x[..j], h, q, x[j + 1..]);
    assert AllParts(split);
    z := Merged(split, m);
  }

  lemma Merged(split: seq<string>, m: nat) returns (z: seq<string>)
    requires AllParts(split) && m + 1 < |split| && IsDatumPart(split[m])
    ensures z == split[..m] + [split[m] + "\0" + split[m + 1]] + split[m + 2..]
    ensures |z| == |split| - 1 && AllParts(z) && Join(z, "\0") == Join(split, "\0")
  {
    z := split[..m] + [split[m] + "\0" + split[m + 1]] + split[m + 2..];
    assert split == split[..m] + [split[m], split[m + 1]] + split[m + 2..];
    Glue(split[..m], split[m], split[m + 1], split[m + 2..]);
    DatumTakesIn(split[m], split[m + 1]);
    hide Join, IsDatumPart;
  }

  lemma DatumTakesIn(p: string, q: string)
    requires IsDatumPart(p)
    ensures IsDatumPart(p + "\0" + q)
  {
    var name: string, text: string :| IsTypeName(name) && p == name + ":" + text;
    assert p + "\0" + q == name + ":" + (text + "\0" + q);
  }

  lemma MergePlace(x: seq<string>, j: nat, h: string, q: string, i: nat)
    requires j < |x| && i < |x|
    ensures var split := x[..j] + [h, q] + x[j + 1..];
      if i < j then split[i] == x[i] else split[i + 1] == (if i == j then q else x[i])
    ensures var split := x[..j] + [h, q] + x[j + 1..]; split[j] == h
  {
  }

  /** A rearrangement changes part i or part j. */
  lemma RearrangementDiffers(split: seq<string>, i: nat, j: nat, m: nat, z: seq<string>, x: seq<string>)
    requires |z| == |x| && |split| == |x| + 1 && i < |x| - 1 && j < |x| && m == (if i < j then i else i + 1)
    requires z == split[..m] + [split[m] + "\0" + split[m + 1]] + split[m + 2..]
    requires if i < j then split[i] == x[i] else |split[j]| < |x[j]|
    ensures z != x
  {
    if i < j {
      assert |z[i]| > |x[i]|;
    } else {
      assert z[j] == split[j];
    }
  }

  lemma RearrangementWorks(a: Row, columns: seq<string>, i: int, j: int, before: string,
          q: string) returns (z: seq<string>)
    requires HasKey(a, columns) && Rearranges(a, columns, i, j, before, q)
    ensures |z| == |columns| && AllParts(z) && z != KeyParts(a, columns)
    ensures Join(z, "\0") == Join(KeyParts(a, columns), "\0")
  {
    var x := KeyParts(a, columns);
    KeyPartsAre(a, columns);
    var value := a[columns[j]];
    var h := value.typeName + ":" + before;
    assert IsDatumPart(h);
    assert x[j] == h + "\0" + q;
    hide Part, IsDatumPart, Join, KeyParts;
    var split := x[..j] + [h, q] + x[j + 1..];
    var m := if i < j then i else i + 1;
    MergePlace(x, j, h, q, i);
    z := Rearranged(x, j, h, q, m);
    RearrangementDiffers(split, i, j, m, z, x);
  }

  /** A key belongs to one choice of values exactly when no part of the row can be split off and another merged. */
  lemma KeyIsExact(a: Row, columns: seq<string>)
    requires HasKey(a, columns) && Distinct(columns)
    ensures (forall b :: HasKey(b, columns) && KeyOf(b, columns) == KeyOf(a, columns) ==> SameValues(a, b, columns))
      <==> !Ambiguous(a, columns)
  {
    hide KeyOf, SameValues, Distinct, Rearranges;
    if Ambiguous(a, columns) {
      var i, j, before, q :| Rearranges(a, columns, i, j, before, q);
      var z := RearrangementWorks(a, columns, i, j, before, q);
      PartsMakeRow(a, columns, z);
    } else {
      forall b | HasKey(b, columns) && KeyOf(b, columns) == KeyOf(a, columns) ensures SameValues(a, b, columns) {
        if !SameValues(a, b, columns) {
          SameKeyRearranges(a, b, columns);
        }
      }
    }
  }

  /** With one key column the key is exact for every text, NUL or not. */
  lemma OneColumnIsExact(a: Row, b: Row, column: string)
    requires HasKey(a, [column]) && HasKey(b, [column])
    ensures KeyOf(a, [column]) == KeyOf(b, [column]) <==> a[column] == b[column]
  {
    hide Rearranges, KeyOf;
    assert !Ambiguous(a, [column]) by {
      forall i, j, before, q ensures !Rearranges(a, [column], i, j, before, q) {
        OneColumnStays(a, column, i, j, before, q);
      }
    }
    KeyIsExact(a, [column]);
    assert column in [column];
    if a[column] == b[column] {
      SameValuesSameKey(a, b, [column]);
    }
  }

  lemma OneColumnStays(a: Row, column: string, i: int, j: int, before: string, q: string)
    requires HasKey(a, [column])
    ensures !Rearranges(a, [column], i, j, before, q)
  {
  }

  lemma SameValuesSameKey(a: Row, b: Row, columns: seq<string>)
    requires HasKey(a, columns) && HasKey(b, columns) && SameValues(a, b, columns)
    ensures KeyOf(a, columns) == KeyOf(b, columns)
  {
    PartsAreExact(a, b, columns);
  }

  /** Without NULs, which PostgreSQL text cannot hold, the key is exact for any number of columns. */
  lemma NoNulIsExact(a: Row, b: Row, columns: seq<string>)
    requires HasKey(a, columns) && HasKey(b, columns) && Distinct(columns)
    requires forall c :: c in columns && a[c].Datum? ==> NoNul(a[c].text)
    ensures KeyOf(a, columns) == KeyOf(b, columns) <==> SameValues(a, b, columns)
  {
    hide KeyOf;
    forall i, j, before, q ensures !Rearranges(a, columns, i, j, before, q) {
      assert '\0' in before + "\0" + q by {
        assert (before + "\0" + q)[|before|] == '\0';
      }
    }
    KeyIsExact(a, columns);
    if SameValues(a, b, columns) {
      SameValuesSameKey(a, b, columns);
    }
  }

  /** Beyond printable values the key confuses different rows: a NUL in a text reads as a column boundary. */
  lemma KeyCollides(x: string, y: string, name: string, a: string, b: string, c: string)
    requires x != y
    ensures var one := map[x := Datum(name, a + "\0" + (name + ":" + b)), y := Datum(name, c)];
      var other := map[x := Datum(name, a), y := Datum(name, b + "\0" + (name + ":" + c))];
      KeyOf(one, [x, y]) == KeyOf(other, [x, y]) && one[x] != other[x]
  {
    var one := map[x := Datum(name, a + "\0" + (name + ":" + b)), y := Datum(name, c)];
    var other := map[x := Datum(name, a), y := Datum(name, b + "\0" + (name + ":" + c))];
    assert KeyParts(one, [x, y]) == [Part(one[x]), Part(one[y])]
      && KeyParts(other, [x, y]) == [Part(other[x]), Part(other[y])];
    JoinTwo(Part(one[x]), Part(one[y]));
    JoinTwo(Part(other[x]), Part(other[y]));
    SameJoin(name + ":", a, b, c);
    assert |one[x].text| > |other[x].text|;
  }

  lemma JoinTwo(p: string, q: string)
    ensures Join([p, q], "\0") == p + "\0" + q
  {
    assert [p, q][1..] == [q];
  }

  lemma SameJoin(prefix: string, a: string, b: string, c: string)
    ensures prefix + (a + "\0" + (prefix + b)) + "\0" + (prefix + c)
      == prefix + a + "\0" + (prefix + (b + "\0" + (prefix + c)))
  {
  }
}
