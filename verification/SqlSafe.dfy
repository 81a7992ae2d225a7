/** Statement construction (internal/sqlsafe/sql.go). */
module SqlSafe {
  import opened Wrappers
  import opened Text
  import opened Ordering
  import opened Domain
  import opened SqlSyntax

  datatype Statement = Statement(sql: string, template: string, args: seq<Value>)

  datatype BuildError =
    | InvalidIdentifier(value: string)
    | PrimaryKeyRequired
    | MissingKeyValue(column: string)
    | OneMutationRequired
    | ColumnsRequired
    | MissingValue(column: string)

  function Message(e: BuildError): (text: string)
    ensures text != ""
  {
    match e
    case InvalidIdentifier(value) => "invalid identifier \"" + value + "\""
    case PrimaryKeyRequired => "primary key required"
    case MissingKeyValue(column) => "missing primary-key value for " + column
    case OneMutationRequired => "update requires one mutation"
    case ColumnsRequired => "insert requires columns"
    case MissingValue(column) => "missing value for " + column
  }

  // ---------- which statement, or which error ----------

  function Quoted(value: string): Result<string, BuildError> {
    if IsIdentifier(value) then Ok(Quote(value)) else Err(InvalidIdentifier(value))
  }

  function Target(schema: string, table: string): Option<BuildError> {
    if !IsIdentifier(schema) then Some(InvalidIdentifier(schema))
    else if !IsIdentifier(table) then Some(InvalidIdentifier(table))
    else None
  }

  /** The first key, from the n-th on, that cannot be used. */
  function KeyError(keys: seq<string>, values: Row, n: nat): (e: Option<BuildError>)
    requires n <= |keys|
    ensures e == None <==> forall i :: n <= i < |keys| ==> IsIdentifier(keys[i]) && keys[i] in values
    decreases |keys| - n
  {
    if n == |keys| then None
    else if !IsIdentifier(keys[n]) then Some(InvalidIdentifier(keys[n]))
    else if keys[n] !in values then Some(MissingKeyValue(keys[n]))
    else KeyError(keys, values, n + 1)
  }

  function PredicateError(keys: seq<string>, values: Row): (e: Option<BuildError>)
    ensures e == None <==> keys != [] && forall k :: k in keys ==> IsIdentifier(k) && k in values
  {
    if keys == [] then Some(PrimaryKeyRequired) else KeyError(keys, values, 0)
  }

  function ColumnError(columns: seq<string>, values: Row, n: nat): (e: Option<BuildError>)
    requires n <= |columns|
    ensures e == None <==> forall i :: n <= i < |columns| ==> IsIdentifier(columns[i]) && columns[i] in values
    decreases |columns| - n
  {
    if n == |columns| then None
    else if !IsIdentifier(columns[n]) then Some(InvalidIdentifier(columns[n]))
    else if columns[n] !in values then Some(MissingValue(columns[n]))
    else ColumnError(columns, values, n + 1)
  }

  /** The values of the listed columns, in the list's order. */
  function Pick(columns: seq<string>, values: Row): (args: seq<Value>)
    requires forall c :: c in columns ==> c in values
    ensures |args| == |columns| && forall i :: 0 <= i < |args| ==> args[i] == values[columns[i]]
  {
    seq(|columns|, i requires 0 <= i < |columns| => values[columns[i]])
  }

  function Built(sql: string, args: seq<Value>): Result<Statement, BuildError> {
    Ok(Statement(sql, sql, args))
  }

  function SelectStatement(schema: string, table: string, keys: seq<string>,
          values: Row): Result<Statement, BuildError> {
    if Target(schema, table).Some? then Err(Target(schema, table).value)
    else if PredicateError(keys, values).Some? then Err(PredicateError(keys, values).value)
    else Built(SelectText(schema, table, keys), Pick(keys, values))
  }

  function DeleteStatement(schema: string, table: string, keys: seq<string>,
          values: Row): Result<Statement, BuildError> {
    if Target(schema, table).Some? then Err(Target(schema, table).value)
    else if PredicateError(keys, values).Some? then Err(PredicateError(keys, values).value)
    else Built(DeleteText(schema, table, keys), Pick(keys, values))
  }

  lemma SingleKey(m: Row)
    requires |m| == 1
    ensures exists c :: c in m && m.Keys == {c}
  {
    var c :| c in m;
    assert |m.Keys - {c}| == 0;
    assert m.Keys == {c};
  }

  /** The one column of a one-column mutation. */
  function MutatedColumn(mutation: Row): (c: string)
    requires |mutation| == 1
    ensures c in mutation
  {
    SingleKey(mutation);
    var c :| c in mutation;
    c
  }

  function UpdateStatement(schema: string, table: string, keys: seq<string>, values: Row,
          mutation: Row): Result<Statement, BuildError> {
    if Target(schema, table).Some? then Err(Target(schema, table).value)
    else if |mutation| != 1 then Err(OneMutationRequired)
    else
      var column := MutatedColumn(mutation);
      if !IsIdentifier(column) then Err(InvalidIdentifier(column))
      else if PredicateError(keys, values).Some? then Err(PredicateError(keys, values).value)
      else Built(UpdateText(schema, table, column, keys), [mutation[column]] + Pick(keys, values))
  }

  function InsertStatement(schema: string, table: string, values: Row, columns: seq<string>): Result<Statement,
          BuildError> {
    if Target(schema, table).Some? then Err(Target(schema, table).value)
    else if columns == [] then Err(ColumnsRequired)
    else if ColumnError(columns, values, 0).Some? then Err(ColumnError(columns, values, 0).value)
    else Built(InsertText(schema, table, columns), Pick(columns, values))
  }

  // ---------- the code ----------

  /** `Identifier`: one pass over the characters. */
  method Identifier(value: string) returns (r: Result<string, BuildError>)
    ensures r == Quoted(value)
  {
    if value == "" || ByteLength(value) > 63 {
      return Err(InvalidIdentifier(value));
    }
    for n := 0 to |value|
      invariant n > 0 ==> value[0] == '_' || IsLower(value[0])
      invariant forall i :: 0 < i < n ==> value[i] == '_' || IsLower(value[i]) || IsDigit(value[i])
    {
      var c := value[n];
      if (n == 0 && c != '_' && !IsLower(c)) || (n > 0 && c != '_' && !IsLower(c) && !IsDigit(c)) {
        return Err(InvalidIdentifier(value));
      }
    }
    return Ok("\"" + value + "\"");
  }

  method Qualified(schema: string, table: string) returns (r: Result<string, BuildError>)
    ensures r == match Target(schema, table) case Some(e) => Err(e) case None => Ok(QualifiedText(schema, table))
  {
    var s := Identifier(schema);
    if s.Err? {
      return Err(s.error);
    }
    var t := Identifier(table);
    if t.Err? {
      return Err(t.error);
    }
    return Ok(s.value + "." + t.value);
  }

  /** `predicateOffset`: fills the condition texts and the arguments side by side. */
  method PredicateOffset(keys: seq<string>, values: Row, offset: nat) returns (r: Result<(string, seq<Value>),
          BuildError>)
    ensures match r
      case Err(e) => PredicateError(keys, values) == Some(e)
      case Ok(p) => PredicateError(keys, values) == None && p == (WhereText(keys, offset), Pick(keys, values))
  {
    if keys == [] {
      return Err(PrimaryKeyRequired);
    }
    var p := FillPredicate(keys, values, offset);
    if p.Err? {
      return Err(p.error);
    }
    JoinedParts(keys, offset);
    return Ok((Join(p.value.0, " AND "), p.value.1));
  }

  method FillPredicate(keys: seq<string>, values: Row, offset: nat)
    returns (r: Result<(seq<string>, seq<Value>), BuildError>)
    ensures match r
      case Err(e) => KeyError(keys, values, 0) == Some(e)
      case Ok(p) => KeyError(keys, values, 0) == None && p == (ConditionTexts(keys, offset), Pick(keys, values))
  {
    hide IsIdentifier, Decimal, ConditionText;
    var parts := new string[|keys|](_ => "");
    var args := new Value[|keys|](_ => Null);
    for n := 0 to |keys|
      invariant KeyError(keys, values, 0) == KeyError(keys, values, n)
      invariant forall i :: 0 <= i < n ==> IsIdentifier(keys[i]) && keys[i] in values
      invariant forall i :: 0 <= i < n ==> parts[i] == ConditionText(keys[i], i + offset) && args[i] == values[keys[i]]
    {
      var quoted := Identifier(keys[n]);
      if quoted.Err? {
        return Err(quoted.error);
      }
      if keys[n] !in values {
        return Err(MissingKeyValue(keys[n]));
      }
      ConditionParts(keys[n], n + offset);
      var part := quoted.value + " = $" + Decimal(n + offset);
      assert part == ConditionText(keys[n], n + offset);
      parts[n] := part;
      args[n] := values[keys[n]];
    }
    assert parts[..] == ConditionTexts(keys, offset);
    assert args[..] == Pick(keys, values);
    return Ok((parts[..], args[..]));
  }

  lemma ConditionParts(column: string, n: nat)
    ensures Quote(column) + " = $" + Decimal(n) == ConditionText(column, n)
  {
    assert " = $" + Decimal(n) == " = " + Mark(n);
  }

  lemma JoinedParts(keys: seq<string>, offset: nat)
    ensures Join(ConditionTexts(keys, offset), " AND ") == WhereText(keys, offset)
  {
  }

  method Select(schema: string, table: string, keys: seq<string>, values: Row) returns (r: Result<Statement,
          BuildError>)
    ensures r == SelectStatement(schema, table, keys, values)
  {
    var q := Qualified(schema, table);
    if q.Err? {
      return Err(q.error);
    }
    var p := PredicateOffset(keys, values, 1);
    if p.Err? {
      return Err(p.error);
    }
    var sql := "SELECT * FROM " + (q.value + (" WHERE " + p.value.0));
    return Ok(Statement(sql, sql, p.value.1));
  }

  method Delete(schema: string, table: string, keys: seq<string>, values: Row) returns (r: Result<Statement,
          BuildError>)
    ensures r == DeleteStatement(schema, table, keys, values)
  {
    var q := Qualified(schema, table);
    if q.Err? {
      return Err(q.error);
    }
    var p := PredicateOffset(keys, values, 1);
    if p.Err? {
      return Err(p.error);
    }
    var sql := "DELETE FROM " + (q.value + (" WHERE " + p.value.0));
    return Ok(Statement(sql, sql, p.value.1));
  }

  method Update(schema: string, table: string, keys: seq<string>, values: Row, mutation: Row)
    returns (r: Result<Statement, BuildError>)
    ensures r == UpdateStatement(schema, table, keys, values, mutation)
  {
    var q := Qualified(schema, table);
    if q.Err? {
      return Err(q.error);
    }
    if |mutation| != 1 {
      return Err(OneMutationRequired);
    }
    SingleKey(mutation);
    var column :| column in mutation;
    var quoted := Identifier(column);
    if quoted.Err? {
      return Err(quoted.error);
    }
    var p := PredicateOffset(keys, values, 2);
    if p.Err? {
      return Err(p.error);
    }
    var args := [mutation[column]] + p.value.1;
    var sql := "UPDATE " + (q.value + (" SET " + (quoted.value + " = $1" + (" WHERE " + p.value.0))));
    return Ok(Statement(sql, sql, args));
  }

  /** `Insert`: three slices filled in one loop. */
  method Insert(schema: string, table: string, values: Row, columns: seq<string>) returns (r: Result<Statement,
          BuildError>)
    ensures r == InsertStatement(schema, table, values, columns)
  {
    var q := Qualified(schema, table);
    if q.Err? {
      return Err(q.error);
    }
    if columns == [] {
      return Err(ColumnsRequired);
    }
    var p := FillInsert(columns, values);
    if p.Err? {
      return Err(p.error);
    }
    var (names, marks, args) := p.value;
    var sql := "INSERT INTO " + (q.value + (" (" + (Join(names, ",") + (") VALUES (" + (Join(marks, ",") + ")")))));
    return Ok(Statement(sql, sql, args));
  }

  lemma FilledInsert(columns: seq<string>, values: Row, names: seq<string>, marks: seq<string>, args: seq<Value>)
    requires |names| == |marks| == |args| == |columns| && forall c :: c in columns ==> c in values
    requires forall i :: 0 <= i < |columns| ==>
        names[i] == Quote(columns[i]) && marks[i] == Mark(i + 1) && args[i] == values[columns[i]]
    ensures names == Quotes(columns) && marks == Marks(|columns|) && args == Pick(columns, values)
  {
    hide Quote, Mark;
  }

  lemma AtColumn(columns: seq<string>, values: Row, n: nat)
    requires n < |columns|
    ensures ColumnError(columns, values, n) ==
      if !IsIdentifier(columns[n]) then Some(InvalidIdentifier(columns[n]))
      else if columns[n] !in values then Some(MissingValue(columns[n]))
      else ColumnError(columns, values, n + 1)
  {
    hide IsIdentifier;
  }

  method FillInsert(columns: seq<string>, values: Row)
    returns (r: Result<(seq<string>, seq<string>, seq<Value>), BuildError>)
    ensures match r
      case Err(e) => ColumnError(columns, values, 0) == Some(e)
      case Ok(p) => ColumnError(columns, values, 0) == None && p == (Quotes(columns), Marks(|columns|),
        Pick(columns, values))
  {
    hide IsIdentifier, Decimal, Quote, Quotes, Marks, Pick, ColumnError;
    var names := new string[|columns|](_ => "");
    var marks := new string[|columns|](_ => "");
    var args := new Value[|columns|](_ => Null);
    for n := 0 to |columns|
      invariant ColumnError(columns, values, 0) == ColumnError(columns, values, n)
      invariant forall i :: 0 <= i < n ==> IsIdentifier(columns[i]) && columns[i] in values
      invariant forall i :: 0 <= i < n ==>
          names[i] == Quote(columns[i]) && marks[i] == Mark(i + 1) && args[i] == values[columns[i]]
    {
      AtColumn(columns, values, n);
      var name := Identifier(columns[n]);
      if name.Err? {
        return Err(name.error);
      }
      if columns[n] !in values {
        return Err(MissingValue(columns[n]));
      }
      names[n] := name.value;
      marks[n] := "$" + Decimal(n + 1);
      assert marks[n] == Mark(n + 1);
      args[n] := values[columns[n]];
    }
    FilledInsert(columns, values, names[..], marks[..], args[..]);
    return Ok((names[..], marks[..], args[..]));
  }

  // ---------- what the statements mean ----------

  /** SQL equality: never true of NULL. */
  predicate SqlEqual(a: Value, b: Value) {
    a != Null && a == b
  }

  /** A row satisfies a WHERE clause with its placeholders bound to the arguments. */
  predicate Holds(where: seq<Condition>, args: seq<Value>, row: Row) {
    forall i :: 0 <= i < |where| ==>
      && where[i].column in row && 1 <= where[i].mark <= |args|
      && SqlEqual(row[where[i].column], args[where[i].mark - 1])
  }

  /** The configured row filter: every key column is present, not NULL, and equal to its configured value. */
  predicate KeyMatches(keys: seq<string>, values: Row, row: Row) {
    forall k :: k in keys ==> k in values && k in row && values[k] != Null && row[k] == values[k]
  }

  lemma WhereMeansKey(keys: seq<string>, values: Row, offset: nat, args: seq<Value>, row: Row)
    requires forall k :: k in keys ==> k in values
    requires offset >= 1 && |args| == offset - 1 + |keys|
    requires forall i :: 0 <= i < |keys| ==> args[offset - 1 + i] == values[keys[i]]
    ensures Holds(Conditions(keys, offset), args, row) <==> KeyMatches(keys, values, row)
  {
    var where := Conditions(keys, offset);
    if Holds(where, args, row) {
      forall k | k in keys ensures k in row && values[k] != Null && row[k] == values[k] {
        var i :| 0 <= i < |keys| && keys[i] == k;
        assert where[i] == Condition(k, i + offset);
      }
    }
    if KeyMatches(keys, values, row) {
      forall i | 0 <= i < |where|
        ensures where[i].column in row && 1 <= where[i].mark <= |args|
        ensures SqlEqual(row[where[i].column], args[where[i].mark - 1])
      {
        assert keys[i] in keys;
      }
    }
  }

  lemma KeysArePlain(keys: seq<string>)
    requires forall k :: k in keys ==> IsIdentifier(k)
    ensures AllPlain(keys)
  {
    forall i | 0 <= i < |keys| ensures Plain(keys[i]) {
      IdentifierHasNoQuote(keys[i]);
    }
  }

  lemma TargetIsPlain(schema: string, table: string)
    requires Target(schema, table) == None
    ensures Plain(schema) && Plain(table)
  {
    IdentifierHasNoQuote(schema);
    IdentifierHasNoQuote(table);
  }

  /** The server reads a SELECT or DELETE back as what it was built from, and its filter is the configured key. */
  lemma KeyStatementsMeanKey(schema: string, table: string, keys: seq<string>, values: Row, row: Row)
    requires SelectStatement(schema, table, keys, values).Ok?
    ensures var s := SelectStatement(schema, table, keys, values).value;
      && DeleteStatement(schema, table, keys, values).Ok?
      && var d := DeleteStatement(schema, table, keys, values).value;
      && Parse(s.sql) == Some(SelectRows(schema, table, Conditions(keys, 1)))
      && Parse(d.sql) == Some(DeleteRows(schema, table, Conditions(keys, 1)))
      && d.args == s.args
      && (Holds(Conditions(keys, 1), s.args, row) <==> KeyMatches(keys, values, row))
  {
    KeysArePlain(keys);
    TargetIsPlain(schema, table);
    SelectRead(schema, table, keys);
    DeleteRead(schema, table, keys);
    WhereMeansKey(keys, values, 1, Pick(keys, values), row);
  }

  /** An UPDATE sets its one column to the first argument; the key's placeholders start at $2. */
  lemma UpdateMeansKey(schema: string, table: string, keys: seq<string>, values: Row, mutation: Row, row: Row)
    requires UpdateStatement(schema, table, keys, values, mutation).Ok?
    ensures var u := UpdateStatement(schema, table, keys, values, mutation).value;
      && |mutation| == 1
      && Parse(u.sql) == Some(UpdateRows(schema, table, MutatedColumn(mutation), 1, Conditions(keys, 2)))
      && u.args != [] && u.args[0] == mutation[MutatedColumn(mutation)]
      && (Holds(Conditions(keys, 2), u.args, row) <==> KeyMatches(keys, values, row))
  {
    hide UpdateStatement, UpdateText, Parse, IsIdentifier, Holds, KeyMatches, Conditions, Pick, MutatedColumn, Target;
    UpdateBuilt(schema, table, keys, values, mutation);
    KeysArePlain(keys);
    TargetIsPlain(schema, table);
    IdentifierHasNoQuote(MutatedColumn(mutation));
    UpdateRead(schema, table, MutatedColumn(mutation), keys);
    WhereMeansKey(keys, values, 2, [mutation[MutatedColumn(mutation)]] + Pick(keys, values), row);
  }

  lemma UpdateBuilt(schema: string, table: string, keys: seq<string>, values: Row, mutation: Row)
    requires UpdateStatement(schema, table, keys, values, mutation).Ok?
    ensures Target(schema, table) == None && |mutation| == 1 && IsIdentifier(MutatedColumn(mutation))
    ensures keys != [] && forall k :: k in keys ==> IsIdentifier(k) && k in values
    ensures var u := UpdateStatement(schema, table, keys, values, mutation).value;
      && u.sql == UpdateText(schema, table, MutatedColumn(mutation), keys)
      && u.args == [mutation[MutatedColumn(mutation)]] + Pick(keys, values)
  {
    hide IsIdentifier, UpdateText, Pick, MutatedColumn;
  }

  // ---------- which error ----------

  /** The error names the first column of the list that is no identifier, or has no value. */
  predicate NamesFirstBad(e: BuildError, columns: seq<string>, values: Row, missing: string -> BuildError) {
    exists k :: 0 <= k < |columns| && (forall j :: 0 <= j < k ==> IsIdentifier(columns[j]) && columns[j] in values)
      && ((!IsIdentifier(columns[k]) && e == InvalidIdentifier(columns[k]))
          || (IsIdentifier(columns[k]) && columns[k] !in values && e == missing(columns[k])))
  }

  /** The error of a bad key list: it is empty, or the first bad key is named. */
  predicate KeysFail(e: BuildError, keys: seq<string>, values: Row) {
    if keys == [] then e == PrimaryKeyRequired else NamesFirstBad(e, keys, values, c => MissingKeyValue(c))
  }

  lemma {:induction false} KeyErrorIsFirst(keys: seq<string>, values: Row, n: nat)
    requires n <= |keys| && forall j :: 0 <= j < n ==> IsIdentifier(keys[j]) && keys[j] in values
    ensures KeyError(keys, values, n).Some? ==>
      NamesFirstBad(KeyError(keys, values, n).value, keys, values, c => MissingKeyValue(c))
    ensures ColumnError(keys, values, n).Some? ==>
      NamesFirstBad(ColumnError(keys, values, n).value, keys, values, c => MissingValue(c))
    decreases |keys| - n
  {
    hide IsIdentifier;
    if n < |keys| && IsIdentifier(keys[n]) && keys[n] in values {
      KeyErrorIsFirst(keys, values, n + 1);
    }
  }

  /** A statement that cannot be built fails for the schema, then the table, then what it needs of its columns. */
  lemma ErrorsAreFirst(schema: string, table: string, keys: seq<string>, values: Row, mutation: Row)
    ensures var q := SelectStatement(schema, table, keys, values);
      q.Err? ==>
        if !IsIdentifier(schema) then q.error == InvalidIdentifier(schema)
        else if !IsIdentifier(table) then q.error == InvalidIdentifier(table)
        else KeysFail(q.error, keys, values)
    ensures var q := SelectStatement(schema, table, keys, values);
      q.Err? ==> DeleteStatement(schema, table, keys, values) == q
    ensures var q := UpdateStatement(schema, table, keys, values, mutation);
      q.Err? ==>
        if !IsIdentifier(schema) then q.error == InvalidIdentifier(schema)
        else if !IsIdentifier(table) then q.error == InvalidIdentifier(table)
        else if |mutation| != 1 then q.error == OneMutationRequired
        else if exists c :: c in mutation && !IsIdentifier(c) then
          exists c :: c in mutation && q.error == InvalidIdentifier(c)
        else KeysFail(q.error, keys, values)
    ensures var q := InsertStatement(schema, table, values, keys);
      q.Err? ==>
        if !IsIdentifier(schema) then q.error == InvalidIdentifier(schema)
        else if !IsIdentifier(table) then q.error == InvalidIdentifier(table)
        else if keys == [] then q.error == ColumnsRequired
        else NamesFirstBad(q.error, keys, values, c => MissingValue(c))
  {
    KeyErrorIsFirst(keys, values, 0);
    if |mutation| == 1 {
      SingleKey(mutation);
      var c :| c in mutation && mutation.Keys == {c};
      assert forall d :: d in mutation <==> d in mutation.Keys;
      assert MutatedColumn(mutation) == c;
    }
    hide IsIdentifier, KeyError, ColumnError, NamesFirstBad, MutatedColumn;
  }

  /** The row an INSERT stores: each listed column with the argument of its placeholder. */
  function InsertedRow(columns: seq<string>, marks: seq<nat>, args: seq<Value>): Row
    decreases |columns|
  {
    if columns == [] || marks == [] then map[]
    else InsertedRow(columns[1..], marks[1..], args)[columns[0] := Bound(args, marks[0])]
  }

  /** The argument bound to `$mark`. */
  function Bound(args: seq<Value>, mark: nat): Value {
    if 1 <= mark <= |args| then args[mark - 1] else Null
  }

  lemma {:induction false} InsertedFrom(columns: seq<string>, values: Row, n: nat)
    requires (forall c :: c in columns ==> c in values) && n <= |columns|
    ensures InsertedRow(columns[n..], MarkNumbers(n + 1, |columns| - n), Pick(columns, values))
      == map c | c in columns[n..] :: values[c]
    decreases |columns| - n
  {
    hide Pick;
    if n < |columns| {
      InsertedFrom(columns, values, n + 1);
      assert columns[n..][1..] == columns[n + 1..];
      assert MarkNumbers(n + 1, |columns| - n)[1..] == MarkNumbers(n + 2, |columns| - n - 1);
      assert columns[n..] == [columns[n]] + columns[n + 1..];
    }
  }

  /** The server reads an INSERT of a whole map back as the row that was configured. */
  lemma InsertMeansRow(schema: string, table: string, values: Row)
    requires InsertStatement(schema, table, values, SortedElements(values.Keys)).Ok?
    ensures var columns := SortedElements(values.Keys);
      var s := InsertStatement(schema, table, values, columns).value;
      && Parse(s.sql) == Some(InsertRow(schema, table, columns, MarkNumbers(1, |columns|)))
      && InsertedRow(columns, MarkNumbers(1, |columns|), s.args) == values
  {
    var columns := SortedElements(values.Keys);
    SortedElementsMembers(values.Keys);
    InsertReads(schema, table, values, columns);
    InsertedWhole(columns, values);
  }

  lemma InsertReads(schema: string, table: string, values: Row, columns: seq<string>)
    requires InsertStatement(schema, table, values, columns).Ok?
    ensures forall c :: c in columns ==> c in values
    ensures var s := InsertStatement(schema, table, values, columns).value;
      && s.args == Pick(columns, values)
      && Parse(s.sql) == Some(InsertRow(schema, table, columns, MarkNumbers(1, |columns|)))
  {
    hide IsIdentifier, InsertText, Parse, MarkNumbers;
    forall k | k in columns ensures IsIdentifier(k) && k in values {
      var i :| 0 <= i < |columns| && columns[i] == k;
    }
    KeysArePlain(columns);
    TargetIsPlain(schema, table);
    InsertRead(schema, table, columns);
  }

  lemma InsertedWhole(columns: seq<string>, values: Row)
    requires forall c :: c in columns <==> c in values
    ensures InsertedRow(columns, MarkNumbers(1, |columns|), Pick(columns, values)) == values
  {
    hide InsertedRow, Pick, MarkNumbers;
    assert columns[0..] == columns;
    InsertedFrom(columns, values, 0);
    assert (map c | c in columns :: values[c]) == values;
  }

  /** The text of a statement does not depend on the values bound to it. */
  lemma TextIgnoresValues(schema: string, table: string, keys: seq<string>, a: Row, b: Row, ma: Row, mb: Row)
    requires ma.Keys == mb.Keys
    ensures var x, y := SelectStatement(schema, table, keys, a), SelectStatement(schema, table, keys, b);
      x.Ok? && y.Ok? ==> x.value.sql == y.value.sql
    ensures var x, y := DeleteStatement(schema, table, keys, a), DeleteStatement(schema, table, keys, b);
      x.Ok? && y.Ok? ==> x.value.sql == y.value.sql
    ensures var x, y := UpdateStatement(schema, table, keys, a, ma), UpdateStatement(schema, table, keys, b, mb);
      x.Ok? && y.Ok? ==> x.value.sql == y.value.sql
    ensures var x, y := InsertStatement(schema, table, a, keys), InsertStatement(schema, table, b, keys);
      x.Ok? && y.Ok? ==> x.value.sql == y.value.sql
  {
    hide IsIdentifier, SelectText, DeleteText, UpdateText, InsertText, PredicateError, ColumnError, Pick, Target;
    if |ma| == 1 && |mb| == 1 {
      SingleKey(ma);
      var c :| ma.Keys == {c};
      assert MutatedColumn(ma) in ma.Keys && MutatedColumn(mb) in mb.Keys;
    }
  }
}
