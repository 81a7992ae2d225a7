/** The SQL the program sends: its text forms, and the reader a server applies to that text. */
module SqlSyntax {
  import opened Wrappers
  import opened Text

  /** `"column" = $mark`. */
  datatype Condition = Condition(column: string, mark: nat)

  datatype Sql =
    | SelectRows(schema: string, table: string, where: seq<Condition>)
    | DeleteRows(schema: string, table: string, where: seq<Condition>)
    | UpdateRows(schema: string, table: string, column: string, mark: nat, where: seq<Condition>)
    | InsertRow(schema: string, table: string, columns: seq<string>, marks: seq<nat>)
    | SetSearchPath(schema: string)
    | SetRole(role: string)
    | SetConfig
    | Savepoint(name: string)
    | RollbackTo(name: string)
    | Release(name: string)
    | Foreign(text: string)   // any other statement; the reader never produces it

  // ---------- text forms ----------

  function Quote(name: string): string {
    "\"" + name + "\""
  }

  function QualifiedText(schema: string, table: string): string {
    Quote(schema) + "." + Quote(table)
  }

  function Mark(n: nat): string {
    "$" + Decimal(n)
  }

  function ConditionText(column: string, n: nat): string {
    Quote(column) + " = " + Mark(n)
  }

  function ConditionTexts(keys: seq<string>, offset: nat): seq<string> {
    seq(|keys|, i requires 0 <= i < |keys| => ConditionText(keys[i], i + offset))
  }

  function WhereText(keys: seq<string>, offset: nat): string {
    Join(ConditionTexts(keys, offset), " AND ")
  }

  function Conditions(keys: seq<string>, offset: nat): seq<Condition> {
    seq(|keys|, i requires 0 <= i < |keys| => Condition(keys[i], i + offset))
  }

  function Quotes(columns: seq<string>): seq<string> {
    seq(|columns|, i requires 0 <= i < |columns| => Quote(columns[i]))
  }

  function Marks(n: nat): seq<string> {
    seq(n, i requires 0 <= i < n => Mark(i + 1))
  }

  function MarkNumbers(first: nat, n: nat): seq<nat> {
    seq(n, i requires 0 <= i < n => first + i)
  }

  function TargetText(schema: string, table: string, keys: seq<string>): string {
    QualifiedText(schema, table) + (" WHERE " + WhereText(keys, 1))
  }

  function SelectText(schema: string, table: string, keys: seq<string>): string {
    "SELECT * FROM " + TargetText(schema, table, keys)
  }

  function DeleteText(schema: string, table: string, keys: seq<string>): string {
    "DELETE FROM " + TargetText(schema, table, keys)
  }

  function AssignmentText(column: string, keys: seq<string>): string {
    Quote(column) + " = $1" + (" WHERE " + WhereText(keys, 2))
  }

  function UpdateText(schema: string, table: string, column: string, keys: seq<string>): string {
    "UPDATE " + (QualifiedText(schema, table) + (" SET " + AssignmentText(column, keys)))
  }

  function ListText(columns: seq<string>): string {
    Join(Quotes(columns), ",") + (") VALUES (" + (Join(Marks(|columns|), ",") + ")"))
  }

  function InsertText(schema: string, table: string, columns: seq<string>): string {
    "INSERT INTO " + (QualifiedText(schema, table) + (" (" + ListText(columns)))
  }

  function SearchPathText(schema: string): string {
    "SET LOCAL search_path = " + (Quote(schema) + ", pg_catalog")
  }

  function RoleText(role: string): string {
    "SET LOCAL ROLE " + Quote(role)
  }

  const SET_CONFIG_TEXT := "SELECT set_config($1,$2,true)"

  // ---------- the reader ----------

  /** A parsed value and the text after it. */
  datatype Parsed<T> = Parsed(value: T, rest: string)

  function Skip(s: string, literal: string): Option<string> {
    if literal <= s then Some(s[|literal|..]) else None
  }

  /** Up to the closing quote; a doubled quote stands for one quote, as SQL has it. */
  function ReadName(s: string): Option<Parsed<string>>
    decreases |s|
  {
    if s == "" then None
    else if s[0] != '"' then
      match ReadName(s[1..])
      case None => None
      case Some(p) => Some(Parsed([s[0]] + p.value, p.rest))
    else if |s| > 1 && s[1] == '"' then
      match ReadName(s[2..])
      case None => None
      case Some(p) => Some(Parsed("\"" + p.value, p.rest))
    else Some(Parsed("", s[1..]))
  }

  function ReadQuoted(s: string): Option<Parsed<string>> {
    if s != "" && s[0] == '"' then ReadName(s[1..]) else None
  }

  /** Reads decimal digits onto a number read so far. */
  function ReadDigits(s: string, n: nat): Parsed<nat>
    decreases |s|
  {
    if s != "" && '0' <= s[0] <= '9' then ReadDigits(s[1..], 10 * n + (s[0] - '0') as nat) else Parsed(n, s)
  }

  function ReadMark(s: string): Option<Parsed<nat>> {
    if |s| > 1 && s[0] == '$' && '0' <= s[1] <= '9' then Some(ReadDigits(s[1..], 0)) else None
  }

  function ReadQualified(s: string): Option<Parsed<(string, string)>> {
    match ReadQuoted(s)
    case None => None
    case Some(schema) =>
      match Skip(schema.rest, ".")
      case None => None
      case Some(dotted) =>
        match ReadQuoted(dotted)
        case None => None
        case Some(table) => Some(Parsed((schema.value, table.value), table.rest))
  }

  function ReadCondition(s: string): Option<Parsed<Condition>> {
    match ReadQuoted(s)
    case None => None
    case Some(column) =>
      match Skip(column.rest, " = ")
      case None => None
      case Some(equals) =>
        match ReadMark(equals)
        case None => None
        case Some(mark) => Some(Parsed(Condition(column.value, mark.value), mark.rest))
  }

  /** Conditions joined by AND, to the end of the text. */
  function ReadWhere(s: string): Option<seq<Condition>>
    decreases |s|
  {
    match ReadCondition(s)
    case None => None
    case Some(p) =>
      if p.rest == "" then Some([p.value])
      else if |p.rest| >= |s| then None
      else
        match Skip(p.rest, " AND ")
        case None => None
        case Some(more) =>
          match ReadWhere(more)
          case None => None
          case Some(others) => Some([p.value] + others)
  }

  /** Quoted names separated by commas. */
  function ReadNames(s: string): Option<Parsed<seq<string>>>
    decreases |s|
  {
    match ReadQuoted(s)
    case None => None
    case Some(p) =>
      if |p.rest| >= |s| then None
      else
        match Skip(p.rest, ",")
        case None => Some(Parsed([p.value], p.rest))
        case Some(more) =>
          match ReadNames(more)
          case None => None
          case Some(others) => Some(Parsed([p.value] + others.value, others.rest))
  }

  /** Placeholders separated by commas. */
  function ReadMarks(s: string): Option<Parsed<seq<nat>>>
    decreases |s|
  {
    match ReadMark(s)
    case None => None
    case Some(p) =>
      if |p.rest| >= |s| then None
      else
        match Skip(p.rest, ",")
        case None => Some(Parsed([p.value], p.rest))
        case Some(more) =>
          match ReadMarks(more)
          case None => None
          case Some(others) => Some(Parsed([p.value] + others.value, others.rest))
  }

  function ReadTarget(s: string): Option<Parsed<(string, string)>> {
    match ReadQualified(s)
    case None => None
    case Some(p) =>
      match Skip(p.rest, " WHERE ")
      case None => None
      case Some(rest) => Some(Parsed(p.value, rest))
  }

  function ReadSelect(s: string): Option<Sql> {
    match ReadTarget(s)
    case None => None
    case Some(p) =>
      match ReadWhere(p.rest)
      case None => None
      case Some(where) => Some(SelectRows(p.value.0, p.value.1, where))
  }

  function ReadDelete(s: string): Option<Sql> {
    match ReadTarget(s)
    case None => None
    case Some(p) =>
      match ReadWhere(p.rest)
      case None => None
      case Some(where) => Some(DeleteRows(p.value.0, p.value.1, where))
  }

  function ReadUpdate(s: string): Option<Sql> {
    match ReadQualified(s)
    case None => None
    case Some(p) =>
      match Skip(p.rest, " SET ")
      case None => None
      case Some(assignment) =>
        match ReadCondition(assignment)
        case None => None
        case Some(change) =>
          match Skip(change.rest, " WHERE ")
          case None => None
          case Some(rest) =>
            match ReadWhere(rest)
            case None => None
            case Some(where) => Some(UpdateRows(p.value.0, p.value.1, change.value.column, change.value.mark, where))
  }

  function ReadInsert(s: string): Option<Sql> {
    match ReadQualified(s)
    case None => None
    case Some(p) =>
      match Skip(p.rest, " (")
      case None => None
      case Some(list) =>
        match ReadNames(list)
        case None => None
        case Some(columns) =>
          match Skip(columns.rest, ") VALUES (")
          case None => None
          case Some(values) =>
            match ReadMarks(values)
            case None => None
            case Some(marks) =>
              if marks.rest == ")" then Some(InsertRow(p.value.0, p.value.1, columns.value, marks.value)) else None
  }

  function ReadSearchPath(s: string): Option<Sql> {
    match ReadQuoted(s)
    case None => None
    case Some(p) => if p.rest == ", pg_catalog" then Some(SetSearchPath(p.value)) else None
  }

  function ReadRole(s: string): Option<Sql> {
    match ReadQuoted(s)
    case None => None
    case Some(p) => if p.rest == "" then Some(SetRole(p.value)) else None
  }

  /** Reads on after a fixed beginning. */
  function After(sql: string, literal: string, read: string -> Option<Sql>): Option<Sql> {
    if literal <= sql then read(sql[|literal|..]) else None
  }

  function Parse(sql: string): Option<Sql> {
    if |sql| < 11 then None
    else match sql[0]
      case 'D' => After(sql, "DELETE FROM ", ReadDelete)
      case 'I' => After(sql, "INSERT INTO ", ReadInsert)
      case 'U' => After(sql, "UPDATE ", ReadUpdate)
      case 'R' =>
        if sql[1] == 'O' then After(sql, "ROLLBACK TO SAVEPOINT ", name => Some(RollbackTo(name)))
        else After(sql, "RELEASE SAVEPOINT ", name => Some(Release(name)))
      case 'S' =>
        if sql[1] == 'A' then After(sql, "SAVEPOINT ", name => Some(Savepoint(name)))
        else if sql[2] == 'T' then
          if sql[10] == 'R' then After(sql, "SET LOCAL ROLE ", ReadRole)
          else After(sql, "SET LOCAL search_path = ", ReadSearchPath)
        else if sql[7] == 's' then if sql == SET_CONFIG_TEXT then Some(SetConfig) else None
        else After(sql, "SELECT * FROM ", ReadSelect)
      case _ => None
  }

  // ---------- reading back what was written ----------

  predicate Stops(rest: string) {
    rest == "" || !('0' <= rest[0] <= '9')
  }

  predicate Plain(name: string) {
    '"' !in name
  }

  lemma {:induction false} NameRead(name: string, rest: string)
    requires Plain(name) && (rest == "" || rest[0] != '"')
    ensures ReadName(name + "\"" + rest) == Some(Parsed(name, rest))
    decreases |name|
  {
    var text := name + "\"" + rest;
    if name == "" {
      assert text[1..] == rest;
    } else {
      assert text[0] == name[0] && name[0] in name;
      assert text[1..] == name[1..] + "\"" + rest;
      NameRead(name[1..], rest);
      assert [name[0]] + name[1..] == name;
    }
  }

  lemma QuoteRead(name: string, rest: string)
    requires Plain(name) && (rest == "" || rest[0] != '"')
    ensures ReadQuoted(Quote(name) + rest) == Some(Parsed(name, rest))
  {
    assert (Quote(name) + rest)[1..] == name + "\"" + rest;
    NameRead(name, rest);
  }

  lemma SkipRead(literal: string, rest: string)
    ensures Skip(literal + rest, literal) == Some(rest)
  {
    assert (literal + rest)[|literal|..] == rest;
  }

  lemma QualifiedRead(schema: string, table: string, rest: string)
    requires Plain(schema) && Plain(table) && (rest == "" || rest[0] != '"')
    ensures ReadQualified(QualifiedText(schema, table) + rest) == Some(Parsed((schema, table), rest))
  {
    assert QualifiedText(schema, table) + rest == Quote(schema) + ("." + (Quote(table) + rest));
    QuoteRead(schema, "." + (Quote(table) + rest));
    SkipRead(".", Quote(table) + rest);
    QuoteRead(table, rest);
  }

  lemma {:induction false} DigitsSplit(a: string, b: string, n: nat)
    requires forall c :: c in a ==> '0' <= c <= '9'
    ensures ReadDigits(a, n).rest == ""
    ensures ReadDigits(a + b, n) == ReadDigits(b, ReadDigits(a, n).value)
    decreases |a|
  {
    if a == "" {
      assert a + b == b;
    } else {
      assert a[0] in a && (a + b)[1..] == a[1..] + b;
      assert forall c :: c in a[1..] ==> c in a;
      DigitsSplit(a[1..], b, 10 * n + (a[0] - '0') as nat);
    }
  }

  lemma {:induction false} DecimalRead(n: nat, rest: string)
    requires Stops(rest)
    ensures ReadDigits(Decimal(n) + rest, 0) == Parsed(n, rest)
  {
    if n < 10 {
      assert ([Digit(n)] + rest)[1..] == rest;
    } else {
      var last := [Digit(n % 10)];
      assert Decimal(n) + rest == Decimal(n / 10) + (last + rest);
      DecimalRead(n / 10, "");
      assert Decimal(n / 10) + "" == Decimal(n / 10);
      DigitsSplit(Decimal(n / 10), last + rest, 0);
      assert (last + rest)[1..] == rest;
      assert ReadDigits(last + rest, n / 10) == ReadDigits(rest, 10 * (n / 10) + n % 10);
    }
  }

  lemma MarkRead(n: nat, rest: string)
    requires Stops(rest)
    ensures ReadMark(Mark(n) + rest) == Some(Parsed(n, rest))
  {
    var text := Mark(n) + rest;
    assert text[1..] == Decimal(n) + rest;
    assert Decimal(n)[0] in Decimal(n);
    DecimalRead(n, rest);
  }

  lemma ConditionRead(column: string, n: nat, rest: string)
    requires Plain(column) && Stops(rest)
    ensures ReadCondition(ConditionText(column, n) + rest) == Some(Parsed(Condition(column, n), rest))
  {
    assert ConditionText(column, n) + rest == Quote(column) + (" = " + (Mark(n) + rest));
    QuoteRead(column, " = " + (Mark(n) + rest));
    SkipRead(" = ", Mark(n) + rest);
    MarkRead(n, rest);
  }

  ghost predicate AllPlain(names: seq<string>) {
    forall i :: 0 <= i < |names| ==> Plain(names[i])
  }

  lemma {:induction false} WhereRead(keys: seq<string>, offset: nat)
    requires keys != [] && AllPlain(keys)
    ensures ReadWhere(WhereText(keys, offset)) == Some(Conditions(keys, offset))
    decreases |keys|
  {
    var texts := ConditionTexts(keys, offset);
    var first := ConditionText(keys[0], offset);
    if |keys| == 1 {
      assert texts == [first] && Conditions(keys, offset) == [Condition(keys[0], offset)];
      WhereLast(keys[0], offset);
    } else {
      assert texts[1..] == ConditionTexts(keys[1..], offset + 1);
      assert Conditions(keys, offset) == [Condition(keys[0], offset)] + Conditions(keys[1..], offset + 1);
      WhereRead(keys[1..], offset + 1);
      WhereStep(keys[0], offset, WhereText(keys[1..], offset + 1), Conditions(keys[1..], offset + 1));
      assert WhereText(keys, offset) == first + " AND " + WhereText(keys[1..], offset + 1);
    }
  }

  lemma WhereLast(column: string, n: nat)
    requires Plain(column)
    ensures ReadWhere(ConditionText(column, n)) == Some([Condition(column, n)])
  {
    assert ConditionText(column, n) + "" == ConditionText(column, n);
    ConditionRead(column, n, "");
    hide ConditionText, ReadCondition;
  }

  lemma WhereStep(column: string, n: nat, more: string, others: seq<Condition>)
    requires Plain(column) && ReadWhere(more) == Some(others)
    ensures ReadWhere(ConditionText(column, n) + " AND " + more) == Some([Condition(column, n)] + others)
  {
    assert ConditionText(column, n) + " AND " + more == ConditionText(column, n) + (" AND " + more);
    ConditionRead(column, n, " AND " + more);
    SkipRead(" AND ", more);
    hide ConditionText, ReadCondition, Skip;
  }

  lemma {:induction false} NamesRead(names: seq<string>, rest: string)
    requires names != [] && AllPlain(names) && rest != "" && rest[0] != '"' && rest[0] != ','
    ensures ReadNames(Join(Quotes(names), ",") + rest) == Some(Parsed(names, rest))
    decreases |names|
  {
    var first := Quote(names[0]);
    if |names| == 1 {
      QuoteRead(names[0], rest);
      assert Quotes(names) == [first] && names == [names[0]] && !("," <= rest);
    } else {
      assert Quotes(names)[1..] == Quotes(names[1..]);
      var more := Join(Quotes(names[1..]), ",") + rest;
      assert Join(Quotes(names), ",") + rest == first + ("," + more);
      QuoteRead(names[0], "," + more);
      SkipRead(",", more);
      NamesRead(names[1..], rest);
      assert [names[0]] + names[1..] == names;
    }
  }

  function MarksFrom(first: nat, n: nat): seq<string> {
    seq(n, i requires 0 <= i < n => Mark(first + i))
  }

  lemma {:induction false} MarksRead(first: nat, n: nat, rest: string)
    requires n > 0 && rest != "" && Stops(rest) && rest[0] != ','
    ensures ReadMarks(Join(MarksFrom(first, n), ",") + rest) == Some(Parsed(MarkNumbers(first, n), rest))
    decreases n
  {
    if n == 1 {
      MarkRead(first, rest);
      assert MarksFrom(first, 1) == [Mark(first)] && !("," <= rest);
      assert MarkNumbers(first, 1) == [first];
    } else {
      assert MarksFrom(first, n)[1..] == MarksFrom(first + 1, n - 1);
      var more := Join(MarksFrom(first + 1, n - 1), ",") + rest;
      assert Join(MarksFrom(first, n), ",") + rest == Mark(first) + ("," + more);
      assert [first] + MarkNumbers(first + 1, n - 1) == MarkNumbers(first, n);
      MarksRead(first + 1, n - 1, rest);
      MarksStep(first, more, Parsed(MarkNumbers(first + 1, n - 1), rest));
    }
  }

  lemma MarksStep(n: nat, more: string, others: Parsed<seq<nat>>)
    requires ReadMarks(more) == Some(others)
    ensures ReadMarks(Mark(n) + ("," + more)) == Some(Parsed([n] + others.value, others.rest))
  {
    MarkRead(n, "," + more);
    SkipRead(",", more);
    hide Mark, ReadMark, Skip;
  }

  lemma AfterRead(literal: string, rest: string, read: string -> Option<Sql>)
    ensures After(literal + rest, literal, read) == read(rest)
  {
    assert (literal + rest)[|literal|..] == rest;
  }

  /** Each keyword leads to its own reader. */
  lemma Dispatch(rest: string)
    ensures Parse("SELECT * FROM " + rest) == ReadSelect(rest)
    ensures Parse("DELETE FROM " + rest) == ReadDelete(rest)
    ensures Parse("INSERT INTO " + rest) == ReadInsert(rest)
  {
    hide After, ReadSelect, ReadDelete, ReadInsert;
    AfterRead("SELECT * FROM ", rest, ReadSelect);
    AfterRead("DELETE FROM ", rest, ReadDelete);
    AfterRead("INSERT INTO ", rest, ReadInsert);
  }

  lemma DispatchUpdate(rest: string)
    requires |rest| >= 4
    ensures Parse("UPDATE " + rest) == ReadUpdate(rest)
  {
    hide After, ReadUpdate;
    AfterRead("UPDATE ", rest, ReadUpdate);
  }

  lemma TargetRead(schema: string, table: string, keys: seq<string>)
    requires Plain(schema) && Plain(table) && keys != [] && AllPlain(keys)
    ensures ReadTarget(TargetText(schema, table, keys)) == Some(Parsed((schema, table), WhereText(keys, 1)))
    ensures ReadWhere(WhereText(keys, 1)) == Some(Conditions(keys, 1))
  {
    QualifiedRead(schema, table, " WHERE " + WhereText(keys, 1));
    SkipRead(" WHERE ", WhereText(keys, 1));
    WhereRead(keys, 1);
    hide QualifiedText, WhereText, ReadQualified, ReadWhere, Skip, Conditions;
  }

  lemma SelectRead(schema: string, table: string, keys: seq<string>)
    requires Plain(schema) && Plain(table) && keys != [] && AllPlain(keys)
    ensures Parse(SelectText(schema, table, keys)) == Some(SelectRows(schema, table, Conditions(keys, 1)))
  {
    TargetRead(schema, table, keys);
    Dispatch(TargetText(schema, table, keys));
    hide Parse, TargetText, ReadTarget, ReadWhere, WhereText, Conditions;
  }

  lemma DeleteRead(schema: string, table: string, keys: seq<string>)
    requires Plain(schema) && Plain(table) && keys != [] && AllPlain(keys)
    ensures Parse(DeleteText(schema, table, keys)) == Some(DeleteRows(schema, table, Conditions(keys, 1)))
  {
    TargetRead(schema, table, keys);
    Dispatch(TargetText(schema, table, keys));
    hide Parse, TargetText, ReadTarget, ReadWhere, WhereText, Conditions;
  }

  lemma AssignmentRead(column: string, keys: seq<string>)
    requires Plain(column) && keys != [] && AllPlain(keys)
    ensures ReadCondition(AssignmentText(column, keys))
      == Some(Parsed(Condition(column, 1), " WHERE " + WhereText(keys, 2)))
    ensures Skip(" WHERE " + WhereText(keys, 2), " WHERE ") == Some(WhereText(keys, 2))
    ensures ReadWhere(WhereText(keys, 2)) == Some(Conditions(keys, 2))
  {
    assert Decimal(1) == "1";
    assert ConditionText(column, 1) == Quote(column) + " = $1";
    ConditionRead(column, 1, " WHERE " + WhereText(keys, 2));
    SkipRead(" WHERE ", WhereText(keys, 2));
    WhereRead(keys, 2);
  }

  lemma UpdateRead(schema: string, table: string, column: string, keys: seq<string>)
    requires Plain(schema) && Plain(table) && Plain(column) && keys != [] && AllPlain(keys)
    ensures Parse(UpdateText(schema, table, column, keys))
      == Some(UpdateRows(schema, table, column, 1, Conditions(keys, 2)))
  {
    var assignment := AssignmentText(column, keys);
    QualifiedRead(schema, table, " SET " + assignment);
    SkipRead(" SET ", assignment);
    AssignmentRead(column, keys);
    DispatchUpdate(QualifiedText(schema, table) + (" SET " + assignment));
    hide Parse, QualifiedText, AssignmentText, WhereText, ReadQualified, ReadCondition, ReadWhere, Skip, Conditions;
  }

  lemma ListRead(columns: seq<string>)
    requires columns != [] && AllPlain(columns)
    ensures ReadNames(ListText(columns)) == Some(Parsed(columns, ") VALUES (" + (Join(Marks(|columns|), ",") + ")")))
    ensures Skip(") VALUES (" + (Join(Marks(|columns|), ",") + ")"), ") VALUES (")
      == Some(Join(Marks(|columns|), ",") + ")")
    ensures ReadMarks(Join(Marks(|columns|), ",") + ")") == Some(Parsed(MarkNumbers(1, |columns|), ")"))
  {
    var values := Join(Marks(|columns|), ",") + ")";
    NamesRead(columns, ") VALUES (" + values);
    SkipRead(") VALUES (", values);
    assert Marks(|columns|) == MarksFrom(1, |columns|);
    MarksRead(1, |columns|, ")");
  }

  lemma InsertRead(schema: string, table: string, columns: seq<string>)
    requires Plain(schema) && Plain(table) && columns != [] && AllPlain(columns)
    ensures Parse(InsertText(schema, table, columns))
      == Some(InsertRow(schema, table, columns, MarkNumbers(1, |columns|)))
  {
    var list := ListText(columns);
    QualifiedRead(schema, table, " (" + list);
    SkipRead(" (", list);
    ListRead(columns);
    Dispatch(QualifiedText(schema, table) + (" (" + list));
    hide Parse, Skip, ReadQualified, ReadNames, ReadMarks, QualifiedText, ListText, Join, MarkNumbers;
  }

  lemma DispatchSet(rest: string)
    ensures Parse("SET LOCAL search_path = " + rest) == ReadSearchPath(rest)
    ensures Parse("SET LOCAL ROLE " + rest) == ReadRole(rest)
  {
    hide After, ReadSearchPath, ReadRole;
    var path, role := "SET LOCAL search_path = " + rest, "SET LOCAL ROLE " + rest;
    assert path[0] == role[0] == 'S' && path[1] == role[1] == 'E' && path[2] == role[2] == 'T';
    assert path[10] == 's' && role[10] == 'R';
    AfterRead("SET LOCAL search_path = ", rest, ReadSearchPath);
    AfterRead("SET LOCAL ROLE ", rest, ReadRole);
  }

  lemma SearchPathRead(schema: string)
    requires Plain(schema)
    ensures Parse(SearchPathText(schema)) == Some(SetSearchPath(schema))
  {
    QuoteRead(schema, ", pg_catalog");
    DispatchSet(Quote(schema) + ", pg_catalog");
    hide Parse, ReadQuoted, Quote;
  }

  lemma RoleRead(role: string)
    requires Plain(role)
    ensures Parse(RoleText(role)) == Some(SetRole(role))
  {
    assert Quote(role) + "" == Quote(role);
    QuoteRead(role, "");
    DispatchSet(Quote(role));
    hide Parse, ReadQuoted, Quote;
  }

  lemma SavepointRead(name: string)
    requires name != ""
    ensures Parse("SAVEPOINT " + name) == Some(Savepoint(name))
  {
    AfterRead("SAVEPOINT ", name, name => Some(Savepoint(name)));
  }

  lemma RollbackToRead(name: string)
    ensures Parse("ROLLBACK TO SAVEPOINT " + name) == Some(RollbackTo(name))
  {
    AfterRead("ROLLBACK TO SAVEPOINT ", name, name => Some(RollbackTo(name)));
  }

  lemma ReleaseRead(name: string)
    ensures Parse("RELEASE SAVEPOINT " + name) == Some(Release(name))
  {
    AfterRead("RELEASE SAVEPOINT ", name, name => Some(Release(name)));
  }

  lemma ConfigRead()
    ensures Parse(SET_CONFIG_TEXT) == Some(SetConfig)
  {
    hide After;
    var text := SET_CONFIG_TEXT;
    assert |text| == 29 && text[0] == 'S' && text[1] == 'E' && text[2] == 'L' && text[7] == 's';
  }
}
