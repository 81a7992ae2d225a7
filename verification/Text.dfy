/** Text as the program handles it: decimal numbers, joined lists, and what counts as an identifier. */
module Text {
  // Unicode's letter and digit tables are left unspecified outside ASCII.
  type LowerTable = f: char -> bool | forall c :: c < '\U{0080}' ==> (f(c) <==> 'a' <= c <= 'z')
    witness (c: char) => 'a' <= c <= 'z'
  type DigitTable = f: char -> bool | forall c :: c < '\U{0080}' ==> (f(c) <==> '0' <= c <= '9')
    witness (c: char) => '0' <= c <= '9'

  const IsLower: LowerTable
  const IsDigit: DigitTable

  // The names `%T` prints are left unspecified, but none holds a NUL or a colon, and none is that of nil.
  type TypeNames = f: string -> bool | f("string") && forall name :: f(name) ==>
      '\0' !in name && ':' !in name && name != "<nil>"
    witness (name: string) => name == "string"

  const IsTypeName: TypeNames

  function CharBytes(c: char): nat {
    if c < '\U{0080}' then 1 else if c < '\U{0800}' then 2 else if c < '\U{10000}' then 3 else 4
  }

  /** The length in bytes of the UTF-8 form. */
  function ByteLength(s: string): nat {
    if s == "" then 0 else CharBytes(s[0]) + ByteLength(s[1..])
  }

  /** A lowercase identifier of at most 63 bytes. */
  predicate IsIdentifier(value: string) {
    && value != "" && ByteLength(value) <= 63
    && (value[0] == '_' || IsLower(value[0]))
    && forall i :: 0 < i < |value| ==> value[i] == '_' || IsLower(value[i]) || IsDigit(value[i])
  }

  lemma {:induction false} AsciiBytes(s: string)
    requires forall i :: 0 <= i < |s| ==> s[i] < '\U{0080}'
    ensures ByteLength(s) == |s|
  {
    if s != "" {
      AsciiBytes(s[1..]);
    }
  }

  /** Sixty-three bytes are not too long, sixty-four are. */
  lemma LongIdentifiers(s: string)
    requires s != "" && forall i :: 0 <= i < |s| ==> 'a' <= s[i] <= 'z'
    ensures IsIdentifier(s) <==> |s| <= 63
  {
    AsciiBytes(s);
    assert forall i :: 0 <= i < |s| ==> IsLower(s[i]);
  }

  /** Digits do not begin an identifier, and capitals and signs have no place in it. */
  lemma ShortIdentifiers()
    ensures IsIdentifier("a") && IsIdentifier("b") && IsIdentifier("_1") && !IsIdentifier("")
    ensures !IsIdentifier("1") && !IsIdentifier("A") && !IsIdentifier("a-") && !IsIdentifier("a\"")
  {
    AsciiBytes("a");
    AsciiBytes("b");
    AsciiBytes("_1");
  }

  lemma IdentifierHasNoQuote(value: string)
    requires IsIdentifier(value)
    ensures '"' !in value
  {
  }

  function Digit(d: nat): (c: char)
    requires d < 10
    ensures '0' <= c <= '9'
  {
    '0' + d as char
  }

  /** `%d`. */
  function Decimal(n: nat): (s: string)
    ensures s != "" && forall c :: c in s ==> '0' <= c <= '9'
  {
    if n < 10 then [Digit(n)] else Decimal(n / 10) + [Digit(n % 10)]
  }

  /** `strings.Join`. */
  function Join(parts: seq<string>, separator: string): string {
    if parts == [] then "" else if |parts| == 1 then parts[0] else parts[0] + separator + Join(parts[1..], separator)
  }

  /** `strings.Split` with a one-character separator. */
  function Split(s: string, separator: char): (parts: seq<string>)
    ensures parts != []
  {
    if s == "" then [""]
    else
      var rest := Split(s[1..], separator);
      if s[0] == separator then [""] + rest else [[s[0]] + rest[0]] + rest[1..]
  }

  lemma {:induction false} SplitJoins(s: string, separator: char)
    ensures Join(Split(s, separator), [separator]) == s
  {
    if s != "" {
      var rest := Split(s[1..], separator);
      SplitJoins(s[1..], separator);
      if s[0] == separator {
        assert ([""] + rest)[1..] == rest;
      } else {
        assert ([[s[0]] + rest[0]] + rest[1..])[1..] == rest[1..];
      }
    }
  }

  lemma {:induction false} JoinSplits(parts: seq<string>, separator: char)
    requires parts != [] && forall i :: 0 <= i < |parts| ==> separator !in parts[i]
    ensures Split(Join(parts, [separator]), separator) == parts
    decreases |parts|, |parts[0]|
  {
    var s := Join(parts, [separator]);
    if parts[0] != "" {
      var shorter := [parts[0][1..]] + parts[1..];
      JoinSplits(shorter, separator);
      assert s[0] == parts[0][0] && s[1..] == Join(shorter, [separator]) by {
        assert shorter[1..] == parts[1..];
      }
      assert parts[0] == [s[0]] + shorter[0] && parts == [parts[0]] + shorter[1..];
    } else if |parts| > 1 {
      JoinSplits(parts[1..], separator);
      assert s[0] == separator && s[1..] == Join(parts[1..], [separator]);
    }
  }
}
