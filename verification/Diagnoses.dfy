/** What the validator's report says: exactly one line for each thing that is wrong with a profile, and which. */
module Diagnoses {
  import opened Wrappers
  import opened Ordering
  import opened Text
  import opened Domain
  import opened FixtureKeys
  import opened ProfileValidation
  import SqlSyntax

  datatype ColumnList = PrimaryKey | ProtectedColumns

  /** A thing that can be wrong with a profile, and where. */
  datatype Problem =
    | WrongVersion
    | BadSchema
    | NotDisposable
    | NoFixtures
    | NoAttacks
    | BadRole(adversary: bool)
    | BadSetting(adversary: bool, name: string)
    | BadFixtureTable(fixture: nat)
    | EmptyRow(fixture: nat)
    | BadRowColumn(fixture: nat, column: string)
    | BadSensitive(fixture: nat, place: nat)
    | Unmatched(fixture: nat)
    | KeyMissing(fixture: nat)
    | RepeatedKey(fixture: nat, earlier: nat)
    | BadAttackTable(attack: nat)
    | RepeatedTable(attack: nat, first: nat)
    | NoFixture(attack: nat)
    | NoKey(attack: nat)
    | BadColumn(attack: nat, list: ColumnList, place: nat)
    | RepeatedColumn(attack: nat, list: ColumnList, place: nat)
    | NoOperations(attack: nat)
    | BadOperation(attack: nat, place: nat)

  // ---------- what is wrong ----------

  function Who(p: Profile, adversary: bool): Identity {
    if adversary then p.adversary else p.owner
  }

  function ColumnsOf(a: Attack, list: ColumnList): seq<string> {
    match list case PrimaryKey => a.primaryKey case ProtectedColumns => a.protectedColumns
  }

  /** Attack i is the first on fixture j's table. */
  predicate AttackOf(p: Profile, j: nat, i: nat) {
    && j < |p.fixtures| && i < |p.attacks| && p.attacks[i].table == p.fixtures[j].table
    && forall h :: 0 <= h < i ==> p.attacks[h].table != p.fixtures[j].table
  }

  predicate HasColumns(row: Row, columns: seq<string>) {
    forall c :: c in columns ==> c in row
  }

  /** Two fixtures of one table have all columns of a key, and the same key. */
  predicate SameKey(p: Profile, columns: seq<string>, j: nat, k: nat)
    requires j < |p.fixtures| && k < |p.fixtures|
  {
    && p.fixtures[k].table == p.fixtures[j].table
    && HasColumns(p.fixtures[j].ownerRow, columns) && HasColumns(p.fixtures[k].ownerRow, columns)
    && KeyOf(p.fixtures[j].ownerRow, columns) == KeyOf(p.fixtures[k].ownerRow, columns)
  }

  ghost predicate Wrong(p: Profile, q: Problem) {
    match q
    case WrongVersion => p.version != 1
    case BadSchema => !IsIdentifier(p.schema)
    case NotDisposable => !p.requireDisposable
    case NoFixtures => p.fixtures == []
    case NoAttacks => p.attacks == []
    case BadRole(adversary) => !IsIdentifier(Who(p, adversary).role)
    case BadSetting(adversary, name) => name in Who(p, adversary).settings && !IsSettingName(name)
    case BadFixtureTable(_) => FixtureWrong(p.fixtures, q)
    case EmptyRow(_) => FixtureWrong(p.fixtures, q)
    case BadRowColumn(_, _) => FixtureWrong(p.fixtures, q)
    case BadSensitive(_, _) => FixtureWrong(p.fixtures, q)
    case Unmatched(_) => KeyWrong(p, q)
    case KeyMissing(_) => KeyWrong(p, q)
    case RepeatedKey(_, _) => KeyWrong(p, q)
    case _ => AttackWrong(p, q)
  }

  /** Wrong with a fixture on its own. */
  predicate FixtureWrong(fixtures: seq<Fixture>, q: Problem) {
    match q
    case BadFixtureTable(i) => i < |fixtures| && !IsIdentifier(fixtures[i].table)
    case EmptyRow(i) => i < |fixtures| && fixtures[i].ownerRow == map[]
    case BadRowColumn(i, c) => i < |fixtures| && c in fixtures[i].ownerRow && !IsIdentifier(c)
    case BadSensitive(i, n) =>
      && i < |fixtures| && n < |fixtures[i].sensitiveColumns| && !IsIdentifier(fixtures[i].sensitiveColumns[n])
    case _ => false
  }

  /** Wrong with a fixture against the attack on its table. */
  ghost predicate KeyWrong(p: Profile, q: Problem) {
    match q
    case Unmatched(j) =>
      j < |p.fixtures| && forall h :: 0 <= h < |p.attacks| ==> p.attacks[h].table != p.fixtures[j].table
    case KeyMissing(j) =>
      exists i: nat :: AttackOf(p, j, i) && exists c :: c in p.attacks[i].primaryKey && c !in p.fixtures[j].ownerRow
    case RepeatedKey(j, k) =>
      exists i: nat ::
        && AttackOf(p, j, i) && k < j && SameKey(p, p.attacks[i].primaryKey, j, k)
        && forall h :: 0 <= h < k ==> !SameKey(p, p.attacks[i].primaryKey, j, h)
    case _ => false
  }

  predicate AttackWrong(p: Profile, q: Problem) {
    match q
    case BadAttackTable(i) => i < |p.attacks| && !IsIdentifier(p.attacks[i].table)
    case RepeatedTable(i, k) =>
      && k < i < |p.attacks| && p.attacks[k].table == p.attacks[i].table
      && forall h :: 0 <= h < k ==> p.attacks[h].table != p.attacks[i].table
    case NoFixture(i) => i < |p.attacks| && forall f :: f in p.fixtures ==> f.table != p.attacks[i].table
    case NoKey(i) => i < |p.attacks| && p.attacks[i].primaryKey == []
    case BadColumn(i, list, n) =>
      i < |p.attacks| && n < |ColumnsOf(p.attacks[i], list)| && !IsIdentifier(ColumnsOf(p.attacks[i], list)[n])
    case RepeatedColumn(i, list, n) =>
      && i < |p.attacks| && n < |ColumnsOf(p.attacks[i], list)|
      && exists m :: 0 <= m < n && ColumnsOf(p.attacks[i], list)[m] == ColumnsOf(p.attacks[i], list)[n]
    case NoOperations(i) => i < |p.attacks| && p.attacks[i].operations == []
    case BadOperation(i, n) =>
      i < |p.attacks| && n < |p.attacks[i].operations| && p.attacks[i].operations[n].Other?
    case _ => false
  }

  // ---------- how it is reported ----------

  function IdentityPath(adversary: bool): string {
    if adversary then "identity.adversary" else "identity.owner"
  }

  function ListPath(i: nat, list: ColumnList): string {
    "attacks[" + Decimal(i) + "]" +
    match list
    case PrimaryKey => ".primary_key"
    case ProtectedColumns => ".protected_columns"
  }

  /** Where the report says a problem is. */
  function Path(q: Problem): string {
    match q
    case WrongVersion => "version"
    case BadSchema => "database.schema"
    case NotDisposable => "database.require_disposable"
    case NoFixtures => "fixtures"
    case NoAttacks => "attacks"
    case BadRole(a) => IdentityPath(a) + ".role"
    case BadSetting(a, n) => IdentityPath(a) + ".settings." + n
    case BadFixtureTable(i) => "fixtures[" + Decimal(i) + "]" + ".table"
    case EmptyRow(i) => "fixtures[" + Decimal(i) + "]" + ".owner_row"
    case BadRowColumn(i, c) => "fixtures[" + Decimal(i) + "]" + ".owner_row." + c
    case BadSensitive(i, _) => "fixtures[" + Decimal(i) + "]" + ".sensitive_columns"
    case Unmatched(j) => "fixtures[" + Decimal(j) + "]" + ".table"
    case KeyMissing(j) => "fixtures[" + Decimal(j) + "]" + ".owner_row"
    case RepeatedKey(j, _) => "fixtures[" + Decimal(j) + "]" + ".owner_row"
    case BadAttackTable(i) => "attacks[" + Decimal(i) + "]" + ".table"
    case RepeatedTable(i, _) => "attacks[" + Decimal(i) + "]" + ".table"
    case NoFixture(i) => "attacks[" + Decimal(i) + "]" + ".table"
    case NoKey(i) => "attacks[" + Decimal(i) + "]" + ".primary_key"
    case BadColumn(i, list, n) => ListPath(i, list) + "[" + Decimal(n) + "]"
    case RepeatedColumn(i, list, n) => ListPath(i, list) + "[" + Decimal(n) + "]"
    case NoOperations(i) => "attacks[" + Decimal(i) + "]" + ".operations"
    case BadOperation(i, n) => "attacks[" + Decimal(i) + "]" + ".operations" + "[" + Decimal(n) + "]"
  }

  /** What the report says a problem is. */
  function Message(q: Problem): string {
    match q
    case WrongVersion => "must be 1"
    case NotDisposable => "must be true"
    case NoFixtures => "must contain at least one fixture"
    case NoAttacks => "must contain at least one attack"
    case BadSetting(_, _) => "must be a valid setting name"
    case EmptyRow(_) => "must contain at least one column"
    case BadSensitive(_, _) => "contains an invalid identifier"
    case Unmatched(_) => "must have a matching attack target"
    case KeyMissing(_) => "must include every attack primary-key column"
    case RepeatedKey(_, k) => "duplicates fixture key in " + ("fixtures[" + Decimal(k) + "]")
    case RepeatedTable(_, k) => "duplicates " + ("attacks[" + Decimal(k) + "]") + ".table"
    case NoFixture(_) => "must reference a fixture table"
    case NoKey(_) => "must contain at least one column"
    case RepeatedColumn(_, _, _) => "duplicates a previous column"
    case NoOperations(_) => "must contain at least one operation"
    case BadOperation(_, _) => "is not supported"
    case _ => "must be a lowercase PostgreSQL identifier"
  }

  /** The line of the report for a problem. */
  function Line(q: Problem): Diagnostic {
    Diagnostic(Path(q), Message(q))
  }

  const LineOf: Problem -> Diagnostic := q => Line(q)

  /** One line for each problem. */
  ghost function Lines(qs: set<Problem>): multiset<Diagnostic> {
    Image(qs, LineOf)
  }

  lemma LinesPick(qs: set<Problem>, q: Problem)
    requires q in qs
    ensures Lines(qs) == Lines(qs - {q}) + multiset{Line(q)}
  {
    hide Line;
    ImagePick(qs, LineOf, q);
  }

  lemma LinesUnion(a: set<Problem>, b: set<Problem>)
    requires a !! b
    ensures Lines(a + b) == Lines(a) + Lines(b)
  {
    hide Line;
    ImageUnion(a, b, LineOf);
  }

  function If(bad: bool, q: Problem): set<Problem> {
    if bad then {q} else {}
  }

  /** A problem more that is there or not. */
  lemma OneMore(qs: set<Problem>, ms: multiset<Diagnostic>, bad: bool, q: Problem, path: string, message: string)
    requires q !in qs && Lines(qs) == ms && Line(q) == Diagnostic(path, message)
    ensures Lines(qs + If(bad, q)) == ms + One(bad, path, message)
  {
    hide Line, Lines;
    if bad {
      LinesPick(qs + {q}, q);
      assert qs + {q} - {q} == qs;
    } else {
      assert qs + {} == qs;
    }
  }

  lemma LinesOne(bad: bool, q: Problem, path: string, message: string)
    requires Line(q) == Diagnostic(path, message)
    ensures Lines(If(bad, q)) == One(bad, path, message)
  {
    NoLines();
    hide Line, Lines;
    OneMore({}, multiset{}, bad, q, path, message);
    assert {} + If(bad, q) == If(bad, q);
  }

  /** The problems of a profile in the order in which they are looked for. */
  function Kind(q: Problem): nat {
    match q
    case WrongVersion => 0
    case BadSchema => 1
    case NotDisposable => 2
    case BadRole(adversary) => if adversary then 5 else 3
    case BadSetting(adversary, _) => if adversary then 6 else 4
    case BadFixtureTable(_) => 7
    case EmptyRow(_) => 8
    case BadRowColumn(_, _) => 9
    case BadSensitive(_, _) => 10
    case NoFixtures => 11
    case BadAttackTable(_) => 12
    case RepeatedTable(_, _) => 13
    case NoFixture(_) => 14
    case NoKey(_) => 15
    case BadColumn(_, list, _) => if list.PrimaryKey? then 16 else 17
    case RepeatedColumn(_, list, _) => if list.PrimaryKey? then 16 else 17
    case NoOperations(_) => 18
    case BadOperation(_, _) => 19
    case NoAttacks => 20
    case _ => 21
  }

  ghost predicate Among(qs: set<Problem>, low: nat, high: nat) {
    forall q :: q in qs ==> low <= Kind(q) < high
  }

  /** Problems looked for later add their lines. */
  lemma Later(a: set<Problem>, b: set<Problem>, x: multiset<Diagnostic>, y: multiset<Diagnostic>, low: nat, mid: nat,
        high: nat)
    requires Among(a, low, mid) && Among(b, mid, high) && low <= mid <= high && Lines(a) == x && Lines(b) == y
    ensures Among(a + b, low, high) && Lines(a + b) == x + y
  {
    hide Kind, Lines;
    LinesUnion(a, b);
  }

  lemma AmongOne(bad: bool, q: Problem)
    ensures Among(If(bad, q), Kind(q), Kind(q) + 1)
  {
  }

  /** Where in its list the fixture or the attack of a problem stands. */
  function At(q: Problem): nat {
    match q
    case BadFixtureTable(i) => i
    case EmptyRow(i) => i
    case BadRowColumn(i, _) => i
    case BadSensitive(i, _) => i
    case Unmatched(i) => i
    case KeyMissing(i) => i
    case RepeatedKey(i, _) => i
    case BadAttackTable(i) => i
    case RepeatedTable(i, _) => i
    case NoFixture(i) => i
    case NoKey(i) => i
    case BadColumn(i, _, _) => i
    case RepeatedColumn(i, _, _) => i
    case NoOperations(i) => i
    case BadOperation(i, _) => i
    case _ => 0
  }

  // ---------- identities ----------

  function SettingSet(adversary: bool, names: set<string>): set<Problem> {
    set n | n in names :: BadSetting(adversary, n)
  }

  lemma SettingLine(adversary: bool, n: string)
    ensures Line(BadSetting(adversary, n)) == Diagnostic(IdentityPath(adversary) + ".settings." + n, SETTING)
  {
  }

  lemma {:induction false} SettingLines(adversary: bool, names: set<string>)
    ensures Lines(SettingSet(adversary, names)) == Each(IdentityPath(adversary) + ".settings.", names, SETTING)
    decreases names
  {
    var prefix := IdentityPath(adversary) + ".settings.";
    if names == {} {
      EachNone(prefix, SETTING);
      NoLines();
    } else {
      var n :| n in names;
      var rest := names - {n};
      SettingLines(adversary, rest);
      SettingLine(adversary, n);
      hide Lines, Line, Each, IdentityPath;
      assert rest + {n} == names;
      EachGrows(prefix, rest, n, SETTING);
      SettingMore(adversary, rest, n);
      OneMore(SettingSet(adversary, rest), Each(prefix, rest, SETTING), true, BadSetting(adversary, n), prefix + n,
        SETTING);
    }
  }

  lemma SettingMore(adversary: bool, rest: set<string>, n: string)
    requires n !in rest
    ensures BadSetting(adversary, n) !in SettingSet(adversary, rest)
    ensures SettingSet(adversary, rest + {n}) == SettingSet(adversary, rest) + If(true, BadSetting(adversary, n))
  {
  }

  ghost function IdentitySet(p: Profile, adversary: bool): set<Problem> {
    If(!IsIdentifier(Who(p, adversary).role), BadRole(adversary))
    + SettingSet(adversary, BadSettings(Who(p, adversary).settings))
  }

  lemma RoleLine(adversary: bool)
    ensures Line(BadRole(adversary)) == Diagnostic(IdentityPath(adversary) + ".role", LOWERCASE)
    ensures Kind(BadRole(adversary)) == if adversary then 5 else 3
  {
  }

  lemma SettingsAmong(adversary: bool, names: set<string>)
    ensures Among(SettingSet(adversary, names), if adversary then 6 else 4, if adversary then 7 else 5)
  {
  }

  lemma IdentityLines(p: Profile, adversary: bool)
    ensures Lines(IdentitySet(p, adversary)) == IdentityProblems(IdentityPath(adversary), Who(p, adversary))
    ensures Among(IdentitySet(p, adversary), if adversary then 5 else 3, if adversary then 7 else 5)
  {
    var bad, names := !IsIdentifier(Who(p, adversary).role), BadSettings(Who(p, adversary).settings);
    var q, path := BadRole(adversary), IdentityPath(adversary);
    RoleLine(adversary);
    SettingsAmong(adversary, names);
    AmongOne(bad, q);
    SettingLines(adversary, names);
    hide Lines, Line, Each, IsIdentifier, BadSettings, Kind, Among, IdentityPath, One, If, SettingSet;
    LinesOne(bad, q, path + ".role", LOWERCASE);
    Later(If(bad, q), SettingSet(adversary, names), One(bad, path + ".role", LOWERCASE),
      Each(path + ".settings.", names, SETTING), Kind(q), Kind(q) + 1, Kind(q) + 2);
  }

  // ---------- fixtures ----------

  function RowSet(i: nat, columns: set<string>): set<Problem> {
    set c | c in columns :: BadRowColumn(i, c)
  }

  lemma RowLine(i: nat, c: string)
    ensures Line(BadRowColumn(i, c)) == Diagnostic(FixturePath(i) + ".owner_row." + c, LOWERCASE)
  {
  }

  lemma {:induction false} RowLines(i: nat, columns: set<string>)
    ensures Lines(RowSet(i, columns)) == Each(FixturePath(i) + ".owner_row.", columns, LOWERCASE)
    decreases columns
  {
    var prefix := FixturePath(i) + ".owner_row.";
    if columns == {} {
      EachNone(prefix, LOWERCASE);
      NoLines();
    } else {
      var c :| c in columns;
      var rest := columns - {c};
      RowLines(i, rest);
      RowLine(i, c);
      hide Lines, Line, Each, FixturePath;
      assert rest + {c} == columns;
      EachGrows(prefix, rest, c, LOWERCASE);
      RowMore(i, rest, c);
      OneMore(RowSet(i, rest), Each(prefix, rest, LOWERCASE), true, BadRowColumn(i, c), prefix + c, LOWERCASE);
    }
  }

  lemma RowMore(i: nat, rest: set<string>, c: string)
    requires c !in rest
    ensures BadRowColumn(i, c) !in RowSet(i, rest)
    ensures RowSet(i, rest + {c}) == RowSet(i, rest) + If(true, BadRowColumn(i, c))
  {
  }

  function SensitiveSet(i: nat, columns: seq<string>, n: nat): (r: set<Problem>)
    requires n <= |columns|
    ensures forall q :: q in r <==>
      q.BadSensitive? && q.fixture == i && q.place < n && !IsIdentifier(columns[q.place])
  {
    if n == 0 then {} else SensitiveSet(i, columns, n - 1) + If(!IsIdentifier(columns[n - 1]), BadSensitive(i, n - 1))
  }

  lemma SensitiveLine(i: nat, n: nat)
    ensures Line(BadSensitive(i, n))
      == Diagnostic(FixturePath(i) + ".sensitive_columns", "contains an invalid identifier")
  {
  }

  lemma {:induction false} SensitiveLines(i: nat, columns: seq<string>, n: nat)
    requires n <= |columns|
    ensures Lines(SensitiveSet(i, columns, n)) == SensitiveProblems(FixturePath(i), columns, n)
  {
    if n == 0 {
      NoLines();
    } else {
      SensitiveLines(i, columns, n - 1);
      SensitiveLine(i, n - 1);
      hide IsIdentifier, Lines, Line, FixturePath, One, If;
      OneMore(SensitiveSet(i, columns, n - 1), SensitiveProblems(FixturePath(i), columns, n - 1),
        !IsIdentifier(columns[n - 1]), BadSensitive(i, n - 1), FixturePath(i) + ".sensitive_columns",
        "contains an invalid identifier");
    }
  }

  lemma NoLines()
    ensures Lines({}) == multiset{}
  {
  }

  lemma FixturePathIs(i: nat)
    ensures FixturePath(i) == "fixtures[" + Decimal(i) + "]" && AttackPath(i) == "attacks[" + Decimal(i) + "]"
  {
  }

  function FixtureSet(i: nat, f: Fixture): set<Problem> {
    If(!IsIdentifier(f.table), BadFixtureTable(i)) + If(f.ownerRow == map[], EmptyRow(i))
    + RowSet(i, BadColumns(f.ownerRow)) + SensitiveSet(i, f.sensitiveColumns, |f.sensitiveColumns|)
  }

  lemma FixtureMembers(fixtures: seq<Fixture>, i: nat, q: Problem)
    requires i < |fixtures|
    ensures q in FixtureSet(i, fixtures[i]) <==> FixtureWrong(fixtures, q) && At(q) == i
  {
    hide IsIdentifier;
  }

  lemma FixtureLine(i: nat)
    ensures Line(BadFixtureTable(i)) == Diagnostic(FixturePath(i) + ".table", LOWERCASE)
    ensures Line(EmptyRow(i)) == Diagnostic(FixturePath(i) + ".owner_row", ONE_COLUMN)
  {
  }

  lemma FixtureKinds(i: nat, f: Fixture)
    ensures Among(If(!IsIdentifier(f.table), BadFixtureTable(i)), 7, 8)
    ensures Among(If(f.ownerRow == map[], EmptyRow(i)), 8, 9) && Among(RowSet(i, BadColumns(f.ownerRow)), 9, 10)
    ensures Among(SensitiveSet(i, f.sensitiveColumns, |f.sensitiveColumns|), 10, 11)
  {
    hide IsIdentifier;
  }

  lemma FixtureLines(i: nat, f: Fixture)
    ensures Lines(FixtureSet(i, f)) == FixtureProblems(i, f)
    ensures Among(FixtureSet(i, f), 7, 11)
  {
    FixtureLine(i);
    FixtureKinds(i, f);
    RowLines(i, BadColumns(f.ownerRow));
    SensitiveLines(i, f.sensitiveColumns, |f.sensitiveColumns|);
    hide Lines, Line, Each, IsIdentifier, BadColumns, SensitiveSet, SensitiveProblems, FixturePath, One, If, Among;
    hide RowSet;
    var bad, empty := !IsIdentifier(f.table), f.ownerRow == map[];
    var a, b := If(bad, BadFixtureTable(i)), If(empty, EmptyRow(i));
    var c, d := RowSet(i, BadColumns(f.ownerRow)), SensitiveSet(i, f.sensitiveColumns, |f.sensitiveColumns|);
    LinesOne(bad, BadFixtureTable(i), FixturePath(i) + ".table", LOWERCASE);
    LinesOne(empty, EmptyRow(i), FixturePath(i) + ".owner_row", ONE_COLUMN);
    Later(a, b, Lines(a), Lines(b), 7, 8, 9);
    Later(a + b, c, Lines(a + b), Lines(c), 7, 9, 10);
    Later(a + b + c, d, Lines(a + b + c), Lines(d), 7, 10, 11);
  }

  function FixturesSet(fixtures: seq<Fixture>, n: nat): set<Problem>
    requires n <= |fixtures|
  {
    if n == 0 then {} else FixturesSet(fixtures, n - 1) + FixtureSet(n - 1, fixtures[n - 1])
  }

  lemma {:induction false} FixturesMembers(fixtures: seq<Fixture>, n: nat)
    requires n <= |fixtures|
    ensures forall q :: q in FixturesSet(fixtures, n) <==> FixtureWrong(fixtures, q) && At(q) < n
  {
    hide FixtureSet, FixtureWrong, At;
    if n > 0 {
      FixturesMembers(fixtures, n - 1);
      forall q ensures q in FixturesSet(fixtures, n) <==> FixtureWrong(fixtures, q) && At(q) < n {
        FixtureMembers(fixtures, n - 1, q);
      }
    }
  }

  lemma {:induction false} FixturesLines(fixtures: seq<Fixture>, n: nat)
    requires n <= |fixtures|
    ensures Lines(FixturesSet(fixtures, n)) == FixturesProblems(fixtures, n)
  {
    hide FixtureSet, FixtureProblems, FixtureWrong, At, Lines;
    if n == 0 {
      NoLines();
    } else {
      FixturesLines(fixtures, n - 1);
      FixtureLines(n - 1, fixtures[n - 1]);
      FixturesMembers(fixtures, n - 1);
      var a, b := FixturesSet(fixtures, n - 1), FixtureSet(n - 1, fixtures[n - 1]);
      forall q | q in a ensures q !in b {
        FixtureMembers(fixtures, n - 1, q);
      }
      LinesUnion(a, b);
    }
  }

  // ---------- attacks ----------

  function ColumnSet(i: nat, list: ColumnList, columns: seq<string>, n: nat): (r: set<Problem>)
    requires n <= |columns|
    ensures forall q :: q in r <==>
      || (q.BadColumn? && q.attack == i && q.list == list && q.place < n && !IsIdentifier(columns[q.place]))
      || (q.RepeatedColumn? && q.attack == i && q.list == list && q.place < n
          && columns[q.place] in columns[..q.place])
  {
    if n == 0 then {}
    else (ColumnSet(i, list, columns, n - 1)
          + If(!IsIdentifier(columns[n - 1]), BadColumn(i, list, n - 1))
          + If(columns[n - 1] in columns[..n - 1], RepeatedColumn(i, list, n - 1)))
  }

  lemma ColumnLine(i: nat, list: ColumnList, n: nat)
    ensures Line(BadColumn(i, list, n)) == Diagnostic(ItemPath(ListPath(i, list), n), LOWERCASE)
    ensures Line(RepeatedColumn(i, list, n))
      == Diagnostic(ItemPath(ListPath(i, list), n), "duplicates a previous column")
  {
  }

  lemma {:induction false} ColumnLines(i: nat, list: ColumnList, columns: seq<string>, n: nat)
    requires n <= |columns|
    ensures Lines(ColumnSet(i, list, columns, n)) == ColumnProblems(ListPath(i, list), columns, n)
  {
    if n == 0 {
      NoLines();
    } else {
      ColumnLines(i, list, columns, n - 1);
      ColumnLine(i, list, n - 1);
      var bad, again := !IsIdentifier(columns[n - 1]), columns[n - 1] in columns[..n - 1];
      var a, b := BadColumn(i, list, n - 1), RepeatedColumn(i, list, n - 1);
      var before, path := ColumnSet(i, list, columns, n - 1), ItemPath(ListPath(i, list), n - 1);
      assert a !in before && b !in before + If(bad, a);
      hide IsIdentifier, Lines, Line, ListPath, ItemPath, One, If;
      OneMore(before, Lines(before), bad, a, path, LOWERCASE);
      OneMore(before + If(bad, a), Lines(before + If(bad, a)), again, b, path, "duplicates a previous column");
    }
  }

  function OperationSet(i: nat, ops: seq<Operation>, n: nat): (r: set<Problem>)
    requires n <= |ops|
    ensures forall q :: q in r <==> q.BadOperation? && q.attack == i && q.place < n && ops[q.place].Other?
  {
    if n == 0 then {} else OperationSet(i, ops, n - 1) + If(ops[n - 1].Other?, BadOperation(i, n - 1))
  }

  lemma OperationLine(i: nat, n: nat)
    ensures Line(BadOperation(i, n)) == Diagnostic(ItemPath(AttackPath(i) + ".operations", n), "is not supported")
  {
  }

  lemma {:induction false} OperationLines(i: nat, ops: seq<Operation>, n: nat)
    requires n <= |ops|
    ensures Lines(OperationSet(i, ops, n)) == OperationProblems(AttackPath(i), ops, n)
  {
    if n == 0 {
      NoLines();
    } else {
      OperationLines(i, ops, n - 1);
      OperationLine(i, n - 1);
      hide Lines, Line, AttackPath, ItemPath, One, If;
      OneMore(OperationSet(i, ops, n - 1), OperationProblems(AttackPath(i), ops, n - 1), ops[n - 1].Other?,
        BadOperation(i, n - 1), ItemPath(AttackPath(i) + ".operations", n - 1), "is not supported");
    }
  }

  function DuplicateSet(i: nat, prior: Option<nat>): set<Problem> {
    if prior.Some? then {RepeatedTable(i, prior.value)} else {}
  }

  function AttackSet(p: Profile, i: nat): set<Problem>
    requires i < |p.attacks|
  {
    TableSet(p, i) + ListSet(i, p.attacks[i])
  }

  function TableSet(p: Profile, i: nat): set<Problem>
    requires i < |p.attacks|
  {
    var a := p.attacks[i];
    If(!IsIdentifier(a.table), BadAttackTable(i)) + DuplicateSet(i, FirstAttack(p.attacks, a.table, i))
    + If(!HasFixture(p.fixtures, a.table), NoFixture(i))
  }

  function ListSet(i: nat, a: Attack): set<Problem> {
    If(a.primaryKey == [], NoKey(i)) + ColumnSet(i, PrimaryKey, a.primaryKey, |a.primaryKey|)
    + ColumnSet(i, ProtectedColumns, a.protectedColumns, |a.protectedColumns|)
    + If(a.operations == [], NoOperations(i)) + OperationSet(i, a.operations, |a.operations|)
  }

  lemma FirstAttackIs(attacks: seq<Attack>, table: string, n: nat, k: nat)
    requires n <= |attacks|
    ensures FirstAttack(attacks, table, n) == Some(k)
      <==> k < n && attacks[k].table == table && forall h :: 0 <= h < k ==> attacks[h].table != table
  {
    var first := FirstAttack(attacks, table, n);
    hide FirstAttack;
    if k < n && attacks[k].table == table && forall h :: 0 <= h < k ==> attacks[h].table != table {
      assert first.Some?;
      assert first.value >= k;
      assert first.value <= k;
    }
  }

  lemma TableMembers(p: Profile, i: nat, q: Problem)
    requires i < |p.attacks| && 12 <= Kind(q) < 15
    ensures q in TableSet(p, i) <==> AttackWrong(p, q) && At(q) == i
  {
    if q.RepeatedTable? {
      FirstAttackIs(p.attacks, p.attacks[i].table, i, q.first);
    }
    hide IsIdentifier, FirstAttack;
    if f :| f in p.fixtures && f.table == p.attacks[i].table {
      var k :| 0 <= k < |p.fixtures| && p.fixtures[k] == f;
    }
  }

  lemma ListMembers(p: Profile, i: nat, q: Problem)
    requires i < |p.attacks| && 15 <= Kind(q) < 20
    ensures q in ListSet(i, p.attacks[i]) <==> AttackWrong(p, q) && At(q) == i
  {
    hide IsIdentifier;
    if q.RepeatedColumn? && q.attack == i {
      var columns := ColumnsOf(p.attacks[i], q.list);
      if m :| 0 <= m < q.place < |columns| && columns[m] == columns[q.place] {
        assert columns[..q.place][m] == columns[q.place];
      }
    }
  }

  lemma AttackMembers(p: Profile, i: nat, q: Problem)
    requires i < |p.attacks|
    ensures q in AttackSet(p, i) <==> AttackWrong(p, q) && At(q) == i
  {
    TableLines(p, i);
    ListLines(i, p.attacks[i]);
    Kinds(p, q);
    if 12 <= Kind(q) < 15 {
      TableMembers(p, i, q);
    } else if 15 <= Kind(q) < 20 {
      ListMembers(p, i, q);
    }
    hide TableSet, ListSet, AttackWrong, At, Kind, Lines, AttackTableProblems, AttackListProblems;
  }

  lemma TableLine(i: nat, k: nat)
    ensures Line(BadAttackTable(i)) == Diagnostic(AttackPath(i) + ".table", LOWERCASE)
    ensures Line(RepeatedTable(i, k))
      == Diagnostic(AttackPath(i) + ".table", "duplicates " + AttackPath(k) + ".table")
    ensures Line(NoFixture(i)) == Diagnostic(AttackPath(i) + ".table", "must reference a fixture table")
    ensures Kind(BadAttackTable(i)) == 12 && Kind(RepeatedTable(i, k)) == 13 && Kind(NoFixture(i)) == 14
  {
  }

  lemma DuplicateLines(i: nat, prior: Option<nat>)
    ensures Lines(DuplicateSet(i, prior)) == Duplicate(AttackPath(i), prior) && Among(DuplicateSet(i, prior), 13, 14)
  {
    if prior.Some? {
      TableLine(i, prior.value);
      hide Lines, Line, AttackPath, Kind;
      LinesOne(true, RepeatedTable(i, prior.value), AttackPath(i) + ".table",
        "duplicates " + AttackPath(prior.value) + ".table");
    } else {
      NoLines();
    }
  }

  lemma TableLines(p: Profile, i: nat)
    requires i < |p.attacks|
    ensures Lines(TableSet(p, i)) == AttackTableProblems(p, i) && Among(TableSet(p, i), 12, 15)
  {
    var a, first := p.attacks[i], FirstAttack(p.attacks, p.attacks[i].table, i);
    var bad, none := !IsIdentifier(a.table), !HasFixture(p.fixtures, a.table);
    var x, y, z := If(bad, BadAttackTable(i)), DuplicateSet(i, first), If(none, NoFixture(i));
    TableLine(i, 0);
    DuplicateLines(i, first);
    AmongOne(bad, BadAttackTable(i));
    AmongOne(none, NoFixture(i));
    hide Lines, Line, IsIdentifier, FirstAttack, HasFixture, Among, Kind, AttackPath, One, If, Duplicate, DuplicateSet;
    LinesOne(bad, BadAttackTable(i), AttackPath(i) + ".table", LOWERCASE);
    LinesOne(none, NoFixture(i), AttackPath(i) + ".table", "must reference a fixture table");
    Later(x, y, Lines(x), Lines(y), 12, 13, 14);
    Later(x + y, z, Lines(x + y), Lines(z), 12, 14, 15);
  }

  lemma ListLine(i: nat)
    ensures Line(NoKey(i)) == Diagnostic(AttackPath(i) + ".primary_key", ONE_COLUMN)
    ensures Line(NoOperations(i)) == Diagnostic(AttackPath(i) + ".operations", "must contain at least one operation")
    ensures ListPath(i, PrimaryKey) == AttackPath(i) + ".primary_key"
    ensures ListPath(i, ProtectedColumns) == AttackPath(i) + ".protected_columns"
  {
  }

  lemma ColumnsAmong(i: nat, list: ColumnList, columns: seq<string>)
    ensures Among(ColumnSet(i, list, columns, |columns|), if list.PrimaryKey? then 16 else 17,
      if list.PrimaryKey? then 17 else 18)
  {
    hide IsIdentifier, ColumnSet;
  }

  lemma OperationsAmong(i: nat, ops: seq<Operation>)
    ensures Among(OperationSet(i, ops, |ops|), 19, 20)
  {
    hide OperationSet;
  }

  lemma ListKinds(i: nat, a: Attack)
    ensures Among(If(a.primaryKey == [], NoKey(i)), 15, 16)
    ensures Among(ColumnSet(i, PrimaryKey, a.primaryKey, |a.primaryKey|), 16, 17)
    ensures Among(ColumnSet(i, ProtectedColumns, a.protectedColumns, |a.protectedColumns|), 17, 18)
    ensures Among(If(a.operations == [], NoOperations(i)), 18, 19)
    ensures Among(OperationSet(i, a.operations, |a.operations|), 19, 20)
  {
    AmongOne(a.primaryKey == [], NoKey(i));
    AmongOne(a.operations == [], NoOperations(i));
    ColumnsAmong(i, PrimaryKey, a.primaryKey);
    ColumnsAmong(i, ProtectedColumns, a.protectedColumns);
    OperationsAmong(i, a.operations);
    hide Among, ColumnSet, OperationSet, If;
  }

  lemma ListLines(i: nat, a: Attack)
    ensures Lines(ListSet(i, a)) == AttackListProblems(a, AttackPath(i)) && Among(ListSet(i, a), 15, 20)
  {
    var v, w := If(a.primaryKey == [], NoKey(i)), ColumnSet(i, PrimaryKey, a.primaryKey, |a.primaryKey|);
    var x := ColumnSet(i, ProtectedColumns, a.protectedColumns, |a.protectedColumns|);
    var y, z := If(a.operations == [], NoOperations(i)), OperationSet(i, a.operations, |a.operations|);
    ListLine(i);
    ListKinds(i, a);
    ColumnLines(i, PrimaryKey, a.primaryKey, |a.primaryKey|);
    ColumnLines(i, ProtectedColumns, a.protectedColumns, |a.protectedColumns|);
    OperationLines(i, a.operations, |a.operations|);
    hide Lines, Line, IsIdentifier, ColumnSet, OperationSet, ColumnProblems, OperationProblems, Among, AttackPath, One;
    hide If, ListPath;
    LinesOne(a.primaryKey == [], NoKey(i), AttackPath(i) + ".primary_key", ONE_COLUMN);
    LinesOne(a.operations == [], NoOperations(i), AttackPath(i) + ".operations", "must contain at least one operation");
    Later(v, w, Lines(v), Lines(w), 15, 16, 17);
    Later(v + w, x, Lines(v + w), Lines(x), 15, 17, 18);
    Later(v + w + x, y, Lines(v + w + x), Lines(y), 15, 18, 19);
    Later(v + w + x + y, z, Lines(v + w + x + y), Lines(z), 15, 19, 20);
  }

  lemma AttackLines(p: Profile, i: nat)
    requires i < |p.attacks|
    ensures Lines(AttackSet(p, i)) == AttackProblems(p, i) && Among(AttackSet(p, i), 12, 20)
  {
    TableLines(p, i);
    ListLines(i, p.attacks[i]);
    hide Lines, AttackTableProblems, AttackListProblems, TableSet, ListSet, Among;
    Later(TableSet(p, i), ListSet(i, p.attacks[i]), AttackTableProblems(p, i),
      AttackListProblems(p.attacks[i], AttackPath(i)), 12, 15, 20);
  }

  function AttacksSet(p: Profile, n: nat): set<Problem>
    requires n <= |p.attacks|
  {
    if n == 0 then {} else AttacksSet(p, n - 1) + AttackSet(p, n - 1)
  }

  lemma {:induction false} AttacksMembers(p: Profile, n: nat)
    requires n <= |p.attacks|
    ensures forall q :: q in AttacksSet(p, n) <==> AttackWrong(p, q) && At(q) < n
  {
    hide AttackSet, AttackWrong, At;
    if n > 0 {
      AttacksMembers(p, n - 1);
      forall q ensures q in AttacksSet(p, n) <==> AttackWrong(p, q) && At(q) < n {
        AttackMembers(p, n - 1, q);
      }
    }
  }

  lemma {:induction false} AttacksLines(p: Profile, n: nat)
    requires n <= |p.attacks|
    ensures Lines(AttacksSet(p, n)) == AttacksProblems(p, n)
  {
    hide AttackSet, AttackProblems, AttackWrong, At, Lines;
    if n == 0 {
      NoLines();
    } else {
      AttacksLines(p, n - 1);
      AttackLines(p, n - 1);
      AttacksMembers(p, n - 1);
      var a, b := AttacksSet(p, n - 1), AttackSet(p, n - 1);
      forall q | q in a ensures q !in b {
        AttackMembers(p, n - 1, q);
      }
      LinesUnion(a, b);
    }
  }

  // ---------- keys ----------

  function RepeatedSet(j: nat, prior: Option<nat>): set<Problem> {
    if prior.Some? then {RepeatedKey(j, prior.value)} else {}
  }

  function KeySet(p: Profile, j: nat): set<Problem>
    requires j < |p.fixtures|
  {
    var f := p.fixtures[j];
    match FirstAttack(p.attacks, f.table, |p.attacks|)
    case None => {Unmatched(j)}
    case Some(i) =>
      match KeyOf(f.ownerRow, p.attacks[i].primaryKey)
      case None => {KeyMissing(j)}
      case Some(key) => RepeatedSet(j, FirstWithKey(p.fixtures, f.table, p.attacks[i].primaryKey, key, j))
  }

  lemma {:induction false} FirstWithKeyIs(fixtures: seq<Fixture>, table: string, columns: seq<string>, key: string,
        n: nat)
    requires n <= |fixtures|
    ensures var first := FirstWithKey(fixtures, table, columns, key, n);
      first.Some? ==> forall h :: 0 <= h < first.value && fixtures[h].table == table ==>
          KeyOf(fixtures[h].ownerRow, columns) != Some(key)
  {
    hide KeyOf;
    if n > 0 {
      FirstWithKeyIs(fixtures, table, columns, key, n - 1);
    }
  }

  lemma KeyIs(row: Row, columns: seq<string>)
    ensures KeyOf(row, columns).Some? <==> HasColumns(row, columns)
    ensures !HasColumns(row, columns) <==> exists c :: c in columns && c !in row
  {
  }

  /** An earlier fixture has the same key as fixture j: it is found among the fixtures of the table. */
  lemma SameKeyIs(p: Profile, columns: seq<string>, j: nat, k: nat)
    requires j < |p.fixtures| && k < |p.fixtures|
    ensures SameKey(p, columns, j, k) <==>
      && p.fixtures[k].table == p.fixtures[j].table
      && KeyOf(p.fixtures[j].ownerRow, columns).Some?
      && KeyOf(p.fixtures[k].ownerRow, columns) == KeyOf(p.fixtures[j].ownerRow, columns)
  {
    KeyIs(p.fixtures[j].ownerRow, columns);
    KeyIs(p.fixtures[k].ownerRow, columns);
    hide KeyOf, HasColumns;
  }

  lemma OneAttack(p: Profile, j: nat, i: nat)
    requires j < |p.fixtures| && FirstAttack(p.attacks, p.fixtures[j].table, |p.attacks|) == Some(i)
    ensures forall h: nat :: AttackOf(p, j, h) <==> h == i
  {
    forall h: nat ensures AttackOf(p, j, h) <==> h == i {
      FirstAttackIs(p.attacks, p.fixtures[j].table, |p.attacks|, h);
    }
  }

  lemma UnmatchedMembers(p: Profile, j: nat, q: Problem)
    requires j < |p.fixtures| && FirstAttack(p.attacks, p.fixtures[j].table, |p.attacks|) == None
    ensures q == Unmatched(j) <==> KeyWrong(p, q) && At(q) == j
  {
    hide FirstAttack, SameKey;
    assert forall i: nat :: !AttackOf(p, j, i);
  }

  lemma RepeatedMembers(p: Profile, j: nat, i: nat, key: string, k: nat)
    requires j < |p.fixtures| && AttackOf(p, j, i)
    requires KeyOf(p.fixtures[j].ownerRow, p.attacks[i].primaryKey) == Some(key)
    ensures FirstWithKey(p.fixtures, p.fixtures[j].table, p.attacks[i].primaryKey, key, j) == Some(k) <==>
      && k < j && SameKey(p, p.attacks[i].primaryKey, j, k)
      && forall h :: 0 <= h < k ==> !SameKey(p, p.attacks[i].primaryKey, j, h)
  {
    var columns, table := p.attacks[i].primaryKey, p.fixtures[j].table;
    var first := FirstWithKey(p.fixtures, table, columns, key, j);
    FirstWithKeyIs(p.fixtures, table, columns, key, j);
    forall h: nat | h < j
      ensures SameKey(p, columns, j, h)
        <==> p.fixtures[h].table == table && KeyOf(p.fixtures[h].ownerRow, columns) == Some(key)
    {
      SameKeyIs(p, columns, j, h);
    }
    hide KeyOf, SameKey, FirstWithKey;
    if k < j && SameKey(p, columns, j, k) && forall h :: 0 <= h < k ==> !SameKey(p, columns, j, h) {
      assert first.Some?;
      assert SameKey(p, columns, j, first.value) && first.value <= k;
    }
  }

  lemma KeyMembers(p: Profile, j: nat, q: Problem)
    requires j < |p.fixtures|
    ensures q in KeySet(p, j) <==> KeyWrong(p, q) && At(q) == j
  {
    var f, first := p.fixtures[j], FirstAttack(p.attacks, p.fixtures[j].table, |p.attacks|);
    if first == None {
      UnmatchedMembers(p, j, q);
    } else {
      var columns := p.attacks[first.value].primaryKey;
      OneAttack(p, j, first.value);
      KeyIs(f.ownerRow, columns);
      hide FirstAttack, FirstWithKey, AttackOf;
      var key := KeyOf(f.ownerRow, columns);
      if key == None {
        hide KeyOf;
        assert forall k: nat | k < |p.fixtures| :: !SameKey(p, columns, j, k);
      } else if q.RepeatedKey? && q.fixture == j {
        RepeatedMembers(p, j, first.value, key.value, q.earlier);
        hide KeyOf, SameKey;
      }
    }
  }

  lemma KeyLine(j: nat, k: nat)
    ensures Line(Unmatched(j)) == Diagnostic(FixturePath(j) + ".table", "must have a matching attack target")
    ensures Line(KeyMissing(j))
      == Diagnostic(FixturePath(j) + ".owner_row", "must include every attack primary-key column")
    ensures Line(RepeatedKey(j, k))
      == Diagnostic(FixturePath(j) + ".owner_row", "duplicates fixture key in " + FixturePath(k))
  {
  }

  lemma RepeatedLines(j: nat, prior: Option<nat>)
    ensures Lines(RepeatedSet(j, prior)) == Repeated(j, prior)
  {
    if prior.Some? {
      KeyLine(j, prior.value);
      hide Lines, Line, FixturePath;
      LinesOne(true, RepeatedKey(j, prior.value), FixturePath(j) + ".owner_row",
        "duplicates fixture key in " + FixturePath(prior.value));
    } else {
      NoLines();
    }
  }

  lemma KeyLines(p: Profile, j: nat)
    requires j < |p.fixtures|
    ensures Lines(KeySet(p, j)) == KeyProblem(p, j)
  {
    var f, first := p.fixtures[j], FirstAttack(p.attacks, p.fixtures[j].table, |p.attacks|);
    KeyLine(j, 0);
    hide Lines, Line, FirstAttack, KeyOf, FirstWithKey, FixturePath, One, RepeatedSet, Repeated;
    if first == None {
      LinesOne(true, Unmatched(j), FixturePath(j) + ".table", "must have a matching attack target");
    } else {
      var columns := p.attacks[first.value].primaryKey;
      var key := KeyOf(f.ownerRow, columns);
      if key == None {
        LinesOne(true, KeyMissing(j), FixturePath(j) + ".owner_row", "must include every attack primary-key column");
      } else {
        RepeatedLines(j, FirstWithKey(p.fixtures, f.table, columns, key.value, j));
      }
    }
  }

  function KeysSet(p: Profile, n: nat): set<Problem>
    requires n <= |p.fixtures|
  {
    if n == 0 then {} else KeysSet(p, n - 1) + KeySet(p, n - 1)
  }

  lemma {:induction false} KeysMembers(p: Profile, n: nat)
    requires n <= |p.fixtures|
    ensures forall q :: q in KeysSet(p, n) <==> KeyWrong(p, q) && At(q) < n
  {
    hide KeySet, KeyWrong, At;
    if n > 0 {
      KeysMembers(p, n - 1);
      forall q ensures q in KeysSet(p, n) <==> KeyWrong(p, q) && At(q) < n {
        KeyMembers(p, n - 1, q);
      }
    }
  }

  lemma {:induction false} KeysLines(p: Profile, n: nat)
    requires n <= |p.fixtures|
    ensures Lines(KeysSet(p, n)) == TableProblems(p, TablesOf(p.fixtures), n)
  {
    hide KeySet, KeyProblem, KeyWrong, At, Lines;
    if n == 0 {
      NoLines();
    } else {
      KeysLines(p, n - 1);
      KeyLines(p, n - 1);
      KeysMembers(p, n - 1);
      assert p.fixtures[n - 1] in p.fixtures;
      var a, b := KeysSet(p, n - 1), KeySet(p, n - 1);
      forall q | q in a ensures q !in b {
        KeyMembers(p, n - 1, q);
      }
      LinesUnion(a, b);
    }
  }

  // ---------- the whole profile ----------

  ghost function HeaderSet(p: Profile): set<Problem> {
    If(p.version != 1, WrongVersion) + If(!IsIdentifier(p.schema), BadSchema)
    + If(!p.requireDisposable, NotDisposable) + IdentitySet(p, false) + IdentitySet(p, true)
  }

  lemma HeaderLine()
    ensures Line(WrongVersion) == Diagnostic("version", "must be 1")
    ensures Line(BadSchema) == Diagnostic("database.schema", LOWERCASE)
    ensures Line(NotDisposable) == Diagnostic("database.require_disposable", "must be true")
    ensures Line(NoFixtures) == Diagnostic("fixtures", "must contain at least one fixture")
    ensures Line(NoAttacks) == Diagnostic("attacks", "must contain at least one attack")
    ensures Kind(WrongVersion) == 0 && Kind(BadSchema) == 1 && Kind(NotDisposable) == 2
    ensures Kind(NoFixtures) == 11 && Kind(NoAttacks) == 20
  {
  }

  lemma HeaderLines(p: Profile)
    ensures Lines(HeaderSet(p)) == HeaderProblems(p) && Among(HeaderSet(p), 0, 7)
  {
    var x, y, z := p.version != 1, !IsIdentifier(p.schema), !p.requireDisposable;
    var a, b, c := If(x, WrongVersion), If(y, BadSchema), If(z, NotDisposable);
    var d, e := IdentitySet(p, false), IdentitySet(p, true);
    HeaderLine();
    AmongOne(x, WrongVersion);
    AmongOne(y, BadSchema);
    AmongOne(z, NotDisposable);
    IdentityLines(p, false);
    IdentityLines(p, true);
    hide Lines, Line, IsIdentifier, IdentityProblems, IdentitySet, Among, Kind, If, One;
    LinesOne(x, WrongVersion, "version", "must be 1");
    LinesOne(y, BadSchema, "database.schema", LOWERCASE);
    LinesOne(z, NotDisposable, "database.require_disposable", "must be true");
    Later(a, b, Lines(a), Lines(b), 0, 1, 2);
    Later(a + b, c, Lines(a + b), Lines(c), 0, 2, 3);
    Later(a + b + c, d, Lines(a + b + c), Lines(d), 0, 3, 5);
    Later(a + b + c + d, e, Lines(a + b + c + d), Lines(e), 0, 5, 7);
  }

  /** Everything that is wrong with a profile. */
  ghost function Problems(p: Profile): set<Problem> {
    HeaderSet(p) + FixturesSet(p.fixtures, |p.fixtures|) + If(p.fixtures == [], NoFixtures)
    + AttacksSet(p, |p.attacks|) + If(p.attacks == [], NoAttacks) + KeysSet(p, |p.fixtures|)
  }

  lemma HeaderMembers(p: Profile, q: Problem)
    ensures q in HeaderSet(p) <==> Wrong(p, q) && Kind(q) < 7
  {
    hide IsIdentifier, IsSettingName, FixtureWrong, KeyWrong, AttackWrong;
  }

  lemma Kinds(p: Profile, q: Problem)
    ensures FixtureWrong(p.fixtures, q) ==> 7 <= Kind(q) < 11
    ensures AttackWrong(p, q) ==> 12 <= Kind(q) < 20
    ensures KeyWrong(p, q) ==> Kind(q) == 21
  {
    hide IsIdentifier, SameKey;
  }

  lemma InRange(p: Profile, q: Problem)
    ensures FixtureWrong(p.fixtures, q) || KeyWrong(p, q) ==> At(q) < |p.fixtures|
    ensures AttackWrong(p, q) ==> At(q) < |p.attacks|
  {
    hide IsIdentifier, SameKey;
  }

  lemma WrongIs(p: Profile, q: Problem)
    ensures Kind(q) >= 7 ==>
      (Wrong(p, q) <==>
        || FixtureWrong(p.fixtures, q) || AttackWrong(p, q) || KeyWrong(p, q)
        || (q == NoFixtures && p.fixtures == []) || (q == NoAttacks && p.attacks == []))
  {
    hide IsIdentifier, IsSettingName, SameKey;
  }

  lemma ProblemsMembers(p: Profile, q: Problem)
    ensures q in Problems(p) <==> Wrong(p, q)
  {
    HeaderLine();
    HeaderMembers(p, q);
    FixturesMembers(p.fixtures, |p.fixtures|);
    AttacksMembers(p, |p.attacks|);
    KeysMembers(p, |p.fixtures|);
    InRange(p, q);
    Kinds(p, q);
    WrongIs(p, q);
    hide HeaderSet, FixturesSet, AttacksSet, KeysSet, FixtureWrong, AttackWrong, KeyWrong, Wrong, Kind, At, Line;
  }

  lemma PartsAreAmong(p: Profile)
    ensures Among(FixturesSet(p.fixtures, |p.fixtures|), 7, 11) && Among(AttacksSet(p, |p.attacks|), 12, 20)
    ensures Among(KeysSet(p, |p.fixtures|), 21, 22)
  {
    FixturesMembers(p.fixtures, |p.fixtures|);
    AttacksMembers(p, |p.attacks|);
    KeysMembers(p, |p.fixtures|);
    forall q
      ensures FixtureWrong(p.fixtures, q) ==> 7 <= Kind(q) < 11
      ensures AttackWrong(p, q) ==> 12 <= Kind(q) < 20
      ensures KeyWrong(p, q) ==> Kind(q) == 21
    {
      Kinds(p, q);
    }
    hide FixturesSet, AttacksSet, KeysSet, FixtureWrong, AttackWrong, KeyWrong, Kind, At;
  }

  /** The report has exactly one line for each thing that is wrong with the profile, and no other. */
  lemma ReportIsExact(p: Profile)
    ensures forall q :: q in Problems(p) <==> Wrong(p, q)
    ensures Diagnose(p) == Image(Problems(p), LineOf)
  {
    hide *;
    forall q ensures q in Problems(p) <==> Wrong(p, q) {
      ProblemsMembers(p, q);
    }
    AllLines(p);
    LinesAre(Problems(p));
  }

  lemma LinesAre(qs: set<Problem>)
    ensures Lines(qs) == Image(qs, LineOf)
  {
  }

  /** A line is in the report as often as there are problems that it tells of. */
  lemma LinesAreCounted(p: Profile, d: Diagnostic)
    ensures Diagnose(p)[d] == |Preimage(Problems(p), LineOf, d)|
    ensures d in Diagnose(p) <==> exists q :: Wrong(p, q) && LineOf(q) == d
  {
    hide *;
    ReportIsExact(p);
    ImageCount(Problems(p), LineOf, d);
    ImageFinds(Problems(p), LineOf, d);
  }

  lemma FrontLines(p: Profile, x: bool)
    requires x <==> p.fixtures == []
    ensures var qs := HeaderSet(p) + FixturesSet(p.fixtures, |p.fixtures|) + If(x, NoFixtures);
      && Among(qs, 0, 12)
      && Lines(qs) == HeaderProblems(p) + FixturesProblems(p.fixtures, |p.fixtures|)
        + One(x, "fixtures", "must contain at least one fixture")
  {
    HeaderLine();
    PartsAreAmong(p);
    AmongOne(x, NoFixtures);
    HeaderLines(p);
    FixturesLines(p.fixtures, |p.fixtures|);
    hide *;
    LinesOne(x, NoFixtures, "fixtures", "must contain at least one fixture");
    var a, b, c := HeaderSet(p), FixturesSet(p.fixtures, |p.fixtures|), If(x, NoFixtures);
    Later(a, b, Lines(a), Lines(b), 0, 7, 11);
    Later(a + b, c, Lines(a + b), Lines(c), 0, 11, 12);
  }

  lemma BackLines(p: Profile, front: set<Problem>, y: bool)
    requires Among(front, 0, 12) && (y <==> p.attacks == [])
    ensures Lines(front + AttacksSet(p, |p.attacks|) + If(y, NoAttacks) + KeysSet(p, |p.fixtures|))
      == Lines(front) + AttacksProblems(p, |p.attacks|) + One(y, "attacks", "must contain at least one attack")
        + TableProblems(p, TablesOf(p.fixtures), |p.fixtures|)
  {
    hide *;
    HeaderLine();
    PartsAreAmong(p);
    AmongOne(y, NoAttacks);
    AttacksLines(p, |p.attacks|);
    KeysLines(p, |p.fixtures|);
    LinesOne(y, NoAttacks, "attacks", "must contain at least one attack");
    var d, e, f := AttacksSet(p, |p.attacks|), If(y, NoAttacks), KeysSet(p, |p.fixtures|);
    Later(front, d, Lines(front), Lines(d), 0, 12, 20);
    Later(front + d, e, Lines(front + d), Lines(e), 0, 20, 21);
    Later(front + d + e, f, Lines(front + d + e), Lines(f), 0, 21, 22);
  }

  lemma ProblemsAre(p: Profile)
    ensures Problems(p) == HeaderSet(p) + FixturesSet(p.fixtures, |p.fixtures|) + If(p.fixtures == [], NoFixtures)
      + AttacksSet(p, |p.attacks|) + If(p.attacks == [], NoAttacks) + KeysSet(p, |p.fixtures|)
    ensures Diagnose(p) == HeaderProblems(p) + FixturesProblems(p.fixtures, |p.fixtures|)
      + One(p.fixtures == [], "fixtures", "must contain at least one fixture") + AttacksProblems(p, |p.attacks|)
      + One(p.attacks == [], "attacks", "must contain at least one attack")
      + TableProblems(p, TablesOf(p.fixtures), |p.fixtures|)
  {
    hide HeaderSet, FixturesSet, AttacksSet, KeysSet, HeaderProblems, FixturesProblems, AttacksProblems, TableProblems;
    hide If, One;
  }

  lemma AllLines(p: Profile)
    ensures Lines(Problems(p)) == Diagnose(p)
  {
    hide *;
    ProblemsAre(p);
    FrontLines(p, p.fixtures == []);
    BackLines(p, HeaderSet(p) + FixturesSet(p.fixtures, |p.fixtures|) + If(p.fixtures == [], NoFixtures),
      p.attacks == []);
  }

  // ---------- which line tells of which problem ----------

  lemma DecimalIsExact(a: nat, b: nat)
    ensures Decimal(a) == Decimal(b) <==> a == b
  {
    SqlSyntax.DecimalRead(a, "");
    SqlSyntax.DecimalRead(b, "");
    assert Decimal(a) + "" == Decimal(a) && Decimal(b) + "" == Decimal(b);
  }

  /** The index in a path ends at its bracket. */
  lemma BracketEnds(prefix: string, a: nat, rest: string, b: nat, rest': string)
    requires prefix + Decimal(a) + "]" + rest == prefix + Decimal(b) + "]" + rest'
    ensures a == b && rest == rest'
  {
    var s, s', n := prefix + Decimal(a) + "]" + rest, prefix + Decimal(b) + "]" + rest', |prefix|;
    assert s[n..] == Decimal(a) + "]" + rest && s'[n..] == Decimal(b) + "]" + rest';
    var x, y := Decimal(a), Decimal(b);
    DecimalIsExact(a, b);
    hide Decimal;
    BracketFirst(x, rest, y, rest');
  }

  lemma BracketFirst(x: string, rest: string, y: string, rest': string)
    requires ']' !in x && ']' !in y && x + "]" + rest == y + "]" + rest'
    ensures x == y && rest == rest'
  {
    var s, s' := x + "]" + rest, y + "]" + rest';
    assert s[|x|] == ']' && s'[|y|] == ']';
    assert |x| == |y|;
    assert s[..|x|] == x && s'[..|y|] == y && s[|x| + 1..] == rest && s'[|y| + 1..] == rest';
  }

  /** The messages that tell of another place, or of a missing one, tell what they are by a few of their letters. */
  lemma MessageTells(q: Problem)
    ensures var m := Message(q);
      && |m| > 5
      && (m[0] == 'm' && m[5] == 'h' <==> q.Unmatched?)
      && (m[0] == 'm' && m[5] == 'i' <==> q.KeyMissing?)
  {
    hide Decimal;
    assert "must include every attack primary-key column"[5] == 'i';
    assert "must have a matching attack target"[5] == 'h';
    assert LOWERCASE[5] == 'b' && SETTING[5] == 'b' && ONE_COLUMN[5] == 'c';
  }

  lemma DuplicateTells(q: Problem)
    ensures var m := Message(q);
      && m != "" && (m[0] == 'd' ==> |m| > 12)
      && (m[0] == 'd' && m[11] == 'f' <==> q.RepeatedKey?)
      && (m[0] == 'd' && m[11] == 'a' && m[12] == 't' <==> q.RepeatedTable?)
  {
    hide Decimal;
    assert LOWERCASE[0] == 'm' && SETTING[0] == 'm' && ONE_COLUMN[0] == 'm';
  }

  /** A line about keys, or about a repeated table, tells of one problem only, so that its indices can be relied on. */
  lemma LineTells(q: Problem, r: Problem)
    requires q.Unmatched? || q.KeyMissing? || q.RepeatedKey? || q.RepeatedTable?
    requires Line(q) == Line(r)
    ensures q == r
  {
    MessageTells(q);
    MessageTells(r);
    DuplicateTells(q);
    DuplicateTells(r);
    hide Path, Message, Decimal;
    assert Path(q) == Path(r) && Message(q) == Message(r);
    if q.RepeatedTable? {
      RepeatedTableTells(q, r);
    } else {
      FixtureTells(q, r);
    }
    hide Path, Message, Line;
  }

  lemma FixtureTells(q: Problem, r: Problem)
    requires (q.Unmatched? && r.Unmatched?) || (q.KeyMissing? && r.KeyMissing?) || (q.RepeatedKey? && r.RepeatedKey?)
    requires Path(q) == Path(r) && Message(q) == Message(r)
    ensures q == r
  {
    hide Decimal;
    if q.Unmatched? {
      BracketEnds("fixtures[", q.fixture, ".table", r.fixture, ".table");
    } else {
      BracketEnds("fixtures[", q.fixture, ".owner_row", r.fixture, ".owner_row");
      if q.RepeatedKey? {
        SameTail("duplicates fixture key in ", "fixtures[" + Decimal(q.earlier) + "]",
          "fixtures[" + Decimal(r.earlier) + "]");
        IndexTells("fixtures[", q.earlier, r.earlier);
      }
    }
  }

  lemma RepeatedTableTells(q: Problem, r: Problem)
    requires q.RepeatedTable? && r.RepeatedTable? && Path(q) == Path(r) && Message(q) == Message(r)
    ensures q == r
  {
    hide Decimal;
    BracketEnds("attacks[", q.attack, ".table", r.attack, ".table");
    TableTells(q.first, r.first);
  }

  lemma SameTail(prefix: string, a: string, b: string)
    requires prefix + a == prefix + b
    ensures a == b
  {
    assert (prefix + a)[|prefix|..] == a && (prefix + b)[|prefix|..] == b;
  }

  lemma IndexTells(prefix: string, a: nat, b: nat)
    requires prefix + Decimal(a) + "]" == prefix + Decimal(b) + "]"
    ensures a == b
  {
    hide Decimal;
    assert prefix + Decimal(a) + "]" + "" == prefix + Decimal(a) + "]";
    assert prefix + Decimal(b) + "]" + "" == prefix + Decimal(b) + "]";
    BracketEnds(prefix, a, "", b, "");
  }

  lemma TableTells(a: nat, b: nat)
    requires "duplicates " + ("attacks[" + Decimal(a) + "]") + ".table"
      == "duplicates " + ("attacks[" + Decimal(b) + "]") + ".table"
    ensures a == b
  {
    hide Decimal;
    forall n: nat ensures "duplicates " + ("attacks[" + Decimal(n) + "]") + ".table"
      == "duplicates " + ("attacks[" + Decimal(n) + "]" + ".table")
    {
    }
    SameTail("duplicates ", "attacks[" + Decimal(a) + "]" + ".table", "attacks[" + Decimal(b) + "]" + ".table");
    BracketEnds("attacks[", a, ".table", b, ".table");
  }

  /** The report says that fixture j repeats the key of fixture k, or attack i the table of attack k, exactly when k is
      the first with that key or table; and that a key column or an attack is missing, exactly when it is. */
  lemma IndicesAreExact(p: Profile)
    ensures forall j, k :: Line(RepeatedKey(j, k)) in Diagnose(p) <==> Wrong(p, RepeatedKey(j, k))
    ensures forall i, k :: Line(RepeatedTable(i, k)) in Diagnose(p) <==> Wrong(p, RepeatedTable(i, k))
    ensures forall j :: Line(KeyMissing(j)) in Diagnose(p) <==> Wrong(p, KeyMissing(j))
    ensures forall j :: Line(Unmatched(j)) in Diagnose(p) <==> Wrong(p, Unmatched(j))
  {
    hide *;
    forall j, k ensures Line(RepeatedKey(j, k)) in Diagnose(p) <==> Wrong(p, RepeatedKey(j, k)) {
      LineIsExact(p, RepeatedKey(j, k));
    }
    forall i, k ensures Line(RepeatedTable(i, k)) in Diagnose(p) <==> Wrong(p, RepeatedTable(i, k)) {
      LineIsExact(p, RepeatedTable(i, k));
    }
    forall j
      ensures Line(KeyMissing(j)) in Diagnose(p) <==> Wrong(p, KeyMissing(j))
      ensures Line(Unmatched(j)) in Diagnose(p) <==> Wrong(p, Unmatched(j))
    {
      LineIsExact(p, KeyMissing(j));
      LineIsExact(p, Unmatched(j));
    }
  }

  lemma LineIsExact(p: Profile, q: Problem)
    requires q.Unmatched? || q.KeyMissing? || q.RepeatedKey? || q.RepeatedTable?
    ensures Line(q) in Diagnose(p) <==> Wrong(p, q)
  {
    LinesAreCounted(p, Line(q));
    assert LineOf(q) == Line(q);
    hide Diagnose, Wrong, Line, Problems;
    if r :| Wrong(p, r) && LineOf(r) == Line(q) {
      LineTells(q, r);
    }
  }
}
