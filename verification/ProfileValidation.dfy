/** Profile validation (internal/profile/validate.go).  Row, settings and table maps are walked in no particular order;
    the report is the same whatever the order. */
module ProfileValidation {
  import opened Wrappers
  import opened Ordering
  import opened Text
  import opened Domain
  import opened FixtureKeys

  datatype Diagnostic = Diagnostic(path: string, message: string)

  const SUPPORTED_VERSION := 1

  const LOWERCASE := "must be a lowercase PostgreSQL identifier"
  const SETTING := "must be a valid setting name"
  const ONE_COLUMN := "must contain at least one column"

  // ---------- names ----------

  /** Two or more identifiers joined by dots. */
  ghost predicate IsSettingName(value: string) {
    exists parts: seq<string> :: |parts| >= 2 && (forall i :: 0 <= i < |parts| ==> IsIdentifier(parts[i]))
      && value == Join(parts, ".")
  }

  lemma SettingNameParts(value: string)
    ensures IsSettingName(value)
      <==> |Split(value, '.')| >= 2 && forall i :: 0 <= i < |Split(value, '.')| ==> IsIdentifier(Split(value, '.')[i])
  {
    SplitJoins(value, '.');
    if IsSettingName(value) {
      var parts: seq<string> :|
        |parts| >= 2 && (forall i :: 0 <= i < |parts| ==> IsIdentifier(parts[i])) && value == Join(parts, ".");
      forall i | 0 <= i < |parts| ensures '.' !in parts[i] {
        assert IsIdentifier(parts[i]);
      }
      JoinSplits(parts, '.');
    }
  }

  /** `isIdentifier`, the validator's own check. */
  method CheckIdentifier(value: string) returns (ok: bool)
    ensures ok == IsIdentifier(value)
  {
    if value == "" || ByteLength(value) > 63 {
      return false;
    }
    for i := 0 to |value|
      invariant i > 0 ==> value[0] == '_' || IsLower(value[0])
      invariant forall k :: 0 < k < i ==> value[k] == '_' || IsLower(value[k]) || IsDigit(value[k])
    {
      var c := value[i];
      if i == 0 {
        if c != '_' && !IsLower(c) {
          return false;
        }
      } else if c != '_' && !IsLower(c) && !IsDigit(c) {
        return false;
      }
    }
    return true;
  }

  method CheckSettingName(value: string) returns (ok: bool)
    ensures ok == IsSettingName(value)
  {
    SettingNameParts(value);
    hide IsSettingName, IsIdentifier;
    var parts := Split(value, '.');
    if |parts| < 2 {
      return false;
    }
    for i := 0 to |parts|
      invariant forall k :: 0 <= k < i ==> IsIdentifier(parts[k])
    {
      var good := CheckIdentifier(parts[i]);
      if !good {
        return false;
      }
    }
    return true;
  }

  // ---------- the order of a report ----------

  predicate DiagnosticLeq(a: Diagnostic, b: Diagnostic) {
    if a.path == b.path then StringLeq(a.message, b.message) else StringLeq(a.path, b.path)
  }

  lemma DiagnosticOrder()
    ensures TotalOrder(DiagnosticLeq)
  {
    hide StringLeq;
    forall a, b ensures DiagnosticLeq(a, b) || DiagnosticLeq(b, a) {
      StringLeqTotal(a.path, b.path);
      StringLeqTotal(a.message, b.message);
    }
    forall a, b | DiagnosticLeq(a, b) && DiagnosticLeq(b, a) ensures a == b {
      StringLeqTotal(a.path, b.path);
      StringLeqTotal(a.message, b.message);
    }
    forall a, b, c | DiagnosticLeq(a, b) && DiagnosticLeq(b, c) ensures DiagnosticLeq(a, c) {
      StringLeqTotal(a.path, a.path);
      StringLeqTotal(c.path, c.path);
      StringLeqTotal(b.path, c.path);
      if a.path == b.path == c.path {
        StringLeqTransitive(a.message, b.message, c.message);
      } else {
        StringLeqTransitive(a.path, b.path, c.path);
      }
    }
  }

  /** The diagnostics of a multiset by path, then message. */
  ghost function Ordered(found: multiset<Diagnostic>): (r: seq<Diagnostic>)
    ensures Sorted(r, DiagnosticLeq) && multiset(r) == found
  {
    DiagnosticOrder();
    if found == multiset{} then [] else
      var x :| x in found;
      assert found == found - multiset{x} + multiset{x};
      Ordering.Insert(x, Ordered(found - multiset{x}), DiagnosticLeq)
  }

  method SortDiagnostics(list: seq<Diagnostic>) returns (r: seq<Diagnostic>)
    ensures r == Ordered(multiset(list))
  {
    DiagnosticOrder();
    r := Sort(list, DiagnosticLeq);
    SortedUnique(r, Ordered(multiset(list)), DiagnosticLeq);
  }

  // ---------- what is wrong with a profile ----------

  function One(bad: bool, path: string, message: string): multiset<Diagnostic> {
    if bad then multiset{Diagnostic(path, message)} else multiset{}
  }

  /** One diagnostic for each name of a set. */
  function Each(prefix: string, names: set<string>, message: string): multiset<Diagnostic> {
    multiset(set name | name in names :: Diagnostic(prefix + name, message))
  }

  lemma EachGrows(prefix: string, names: set<string>, name: string, message: string)
    requires name !in names
    ensures Each(prefix, names + {name}, message) == Each(prefix, names, message) + One(true, prefix + name, message)
  {
    var before := set n | n in names :: Diagnostic(prefix + n, message);
    var after := set n | n in names + {name} :: Diagnostic(prefix + n, message);
    var d := Diagnostic(prefix + name, message);
    forall n | n in names ensures prefix + n != prefix + name {
      assert n == (prefix + n)[|prefix|..] && name == (prefix + name)[|prefix|..];
    }
    assert after == before + {d};
  }

  function FixturePath(i: nat): string {
    "fixtures[" + Decimal(i) + "]"
  }

  function AttackPath(i: nat): string {
    "attacks[" + Decimal(i) + "]"
  }

  function ItemPath(path: string, i: nat): string {
    path + "[" + Decimal(i) + "]"
  }

  ghost function BadSettings(settings: map<string, string>): set<string> {
    set n | n in settings && !IsSettingName(n)
  }

  function BadColumns(row: Row): set<string> {
    set c | c in row && !IsIdentifier(c)
  }

  ghost function IdentityProblems(path: string, identity: Identity): multiset<Diagnostic> {
    One(!IsIdentifier(identity.role), path + ".role", LOWERCASE)
    + Each(path + ".settings.", BadSettings(identity.settings), SETTING)
  }

  function SensitiveProblems(path: string, columns: seq<string>, n: nat): multiset<Diagnostic>
    requires n <= |columns|
  {
    if n == 0 then multiset{}
    else (SensitiveProblems(path, columns, n - 1)
          + One(!IsIdentifier(columns[n - 1]), path + ".sensitive_columns", "contains an invalid identifier"))
  }

  function FixtureProblems(i: nat, f: Fixture): multiset<Diagnostic> {
    One(!IsIdentifier(f.table), FixturePath(i) + ".table", LOWERCASE)
    + One(f.ownerRow == map[], FixturePath(i) + ".owner_row", ONE_COLUMN)
    + Each(FixturePath(i) + ".owner_row.", BadColumns(f.ownerRow), LOWERCASE)
    + SensitiveProblems(FixturePath(i), f.sensitiveColumns, |f.sensitiveColumns|)
  }

  function FixturesProblems(fixtures: seq<Fixture>, n: nat): multiset<Diagnostic>
    requires n <= |fixtures|
  {
    if n == 0 then multiset{} else FixturesProblems(fixtures, n - 1) + FixtureProblems(n - 1, fixtures[n - 1])
  }

  /** A column list: each column an identifier, none a repetition of an earlier one. */
  function ColumnProblems(path: string, columns: seq<string>, n: nat): multiset<Diagnostic>
    requires n <= |columns|
  {
    if n == 0 then multiset{}
    else (ColumnProblems(path, columns, n - 1)
          + One(!IsIdentifier(columns[n - 1]), ItemPath(path, n - 1), LOWERCASE)
          + One(columns[n - 1] in columns[..n - 1], ItemPath(path, n - 1), "duplicates a previous column"))
  }

  function OperationProblems(path: string, ops: seq<Operation>, n: nat): multiset<Diagnostic>
    requires n <= |ops|
  {
    if n == 0 then multiset{}
    else (OperationProblems(path, ops, n - 1)
          + One(!ops[n - 1].Valid(), ItemPath(path + ".operations", n - 1), "is not supported"))
  }

  /** The first attack on a table among the first n. */
  function FirstAttack(attacks: seq<Attack>, table: string, n: nat): (i: Option<nat>)
    requires n <= |attacks|
    ensures i.Some? ==> i.value < n && attacks[i.value].table == table && forall k :: 0 <= k < i.value ==>
        attacks[k].table != table
    ensures i.None? ==> forall k :: 0 <= k < n ==> attacks[k].table != table
  {
    if n == 0 then None
    else if FirstAttack(attacks, table, n - 1).Some? then FirstAttack(attacks, table, n - 1)
    else if attacks[n - 1].table == table then Some(n - 1) else None
  }

  predicate HasFixture(fixtures: seq<Fixture>, table: string) {
    exists k :: 0 <= k < |fixtures| && fixtures[k].table == table
  }

  function Duplicate(path: string, prior: Option<nat>): multiset<Diagnostic> {
    if prior.Some? then One(true, path + ".table", "duplicates " + AttackPath(prior.value) + ".table") else multiset{}
  }

  function AttackTableProblems(p: Profile, i: nat): multiset<Diagnostic>
    requires i < |p.attacks|
  {
    var a := p.attacks[i];
    var path := AttackPath(i);
    One(!IsIdentifier(a.table), path + ".table", LOWERCASE)
    + Duplicate(path, FirstAttack(p.attacks, a.table, i))
    + One(!HasFixture(p.fixtures, a.table), path + ".table", "must reference a fixture table")
  }

  function AttackListProblems(a: Attack, path: string): multiset<Diagnostic> {
    One(a.primaryKey == [], path + ".primary_key", ONE_COLUMN)
    + ColumnProblems(path + ".primary_key", a.primaryKey, |a.primaryKey|)
    + ColumnProblems(path + ".protected_columns", a.protectedColumns, |a.protectedColumns|)
    + One(a.operations == [], path + ".operations", "must contain at least one operation")
    + OperationProblems(path, a.operations, |a.operations|)
  }

  function AttackProblems(p: Profile, i: nat): multiset<Diagnostic>
    requires i < |p.attacks|
  {
    AttackTableProblems(p, i) + AttackListProblems(p.attacks[i], AttackPath(i))
  }

  function AttacksProblems(p: Profile, n: nat): multiset<Diagnostic>
    requires n <= |p.attacks|
  {
    if n == 0 then multiset{} else AttacksProblems(p, n - 1) + AttackProblems(p, n - 1)
  }

  /** The first fixture of a table, among the first n, with a key. */
  function FirstWithKey(fixtures: seq<Fixture>, table: string, columns: seq<string>, key: string,
          n: nat): (i: Option<nat>)
    requires n <= |fixtures|
    ensures i.Some? ==>
      i.value < n && fixtures[i.value].table == table && KeyOf(fixtures[i.value].ownerRow, columns) == Some(key)
    ensures i.None? ==> forall k :: 0 <= k < n && fixtures[k].table == table ==>
        KeyOf(fixtures[k].ownerRow, columns) != Some(key)
  {
    if n == 0 then None
    else if FirstWithKey(fixtures, table, columns, key, n - 1).Some? then
      FirstWithKey(fixtures, table, columns, key, n - 1)
    else if fixtures[n - 1].table == table && KeyOf(fixtures[n - 1].ownerRow, columns) == Some(key) then Some(n - 1)
    else None
  }

  /** A fixture against the attack on its table: its key columns must be there, and its key must be new. */
  function KeyProblem(p: Profile, j: nat): multiset<Diagnostic>
    requires j < |p.fixtures|
  {
    var f := p.fixtures[j];
    match FirstAttack(p.attacks, f.table, |p.attacks|)
    case None => One(true, FixturePath(j) + ".table", "must have a matching attack target")
    case Some(i) =>
      match KeyOf(f.ownerRow, p.attacks[i].primaryKey)
      case None => One(true, FixturePath(j) + ".owner_row", "must include every attack primary-key column")
      case Some(key) => Repeated(j, FirstWithKey(p.fixtures, f.table, p.attacks[i].primaryKey, key, j))
  }

  function Repeated(j: nat, prior: Option<nat>): multiset<Diagnostic> {
    if prior.Some? then One(true, FixturePath(j) + ".owner_row", "duplicates fixture key in "
      + FixturePath(prior.value)) else multiset{}
  }

  /** The key problems of the fixtures of some tables. */
  function TableProblems(p: Profile, tables: set<string>, n: nat): multiset<Diagnostic>
    requires n <= |p.fixtures|
  {
    if n == 0 then multiset{}
    else (TableProblems(p, tables, n - 1)
          + if p.fixtures[n - 1].table in tables then KeyProblem(p, n - 1) else multiset{})
  }

  function TablesOf(fixtures: seq<Fixture>): set<string> {
    set f | f in fixtures :: f.table
  }

  ghost function HeaderProblems(p: Profile): multiset<Diagnostic> {
    One(p.version != SUPPORTED_VERSION, "version", "must be 1")
    + One(!IsIdentifier(p.schema), "database.schema", LOWERCASE)
    + One(!p.requireDisposable, "database.require_disposable", "must be true")
    + IdentityProblems("identity.owner", p.owner)
    + IdentityProblems("identity.adversary", p.adversary)
  }

  /** Everything wrong with a profile, in no order. */
  ghost function Diagnose(p: Profile): multiset<Diagnostic> {
    HeaderProblems(p)
    + FixturesProblems(p.fixtures, |p.fixtures|)
    + One(p.fixtures == [], "fixtures", "must contain at least one fixture")
    + AttacksProblems(p, |p.attacks|)
    + One(p.attacks == [], "attacks", "must contain at least one attack")
    + TableProblems(p, TablesOf(p.fixtures), |p.fixtures|)
  }

  // ---------- the code ----------

  /** The list that the `add` closure extends. */
  class Collector {
    var diagnostics: seq<Diagnostic>

    ghost function Found(): multiset<Diagnostic>
      reads this
    {
      multiset(diagnostics)
    }

    constructor ()
      ensures diagnostics == []
    {
      diagnostics := [];
    }

    method Add(path: string, message: string)
      modifies this
      ensures diagnostics == old(diagnostics) + [Diagnostic(path, message)]
      ensures Found() == old(Found()) + One(true, path, message)
    {
      diagnostics := diagnostics + [Diagnostic(path, message)];
    }

    /** The source's `if bad { add(...) }`. */
    method AddIf(bad: bool, path: string, message: string)
      modifies this
      ensures Found() == old(Found()) + One(bad, path, message)
    {
      if bad {
        Add(path, message);
      }
    }
  }

  method ValidateIdentity(c: Collector, path: string, identity: Identity)
    modifies c
    ensures c.Found() == old(c.Found()) + IdentityProblems(path, identity)
  {
    hide IsIdentifier, One, Each, BadSettings, Collector.Found;
    ghost var found := c.Found();
    var good := CheckIdentifier(identity.role);
    c.AddIf(!good, path + ".role", LOWERCASE);
    ValidateSettings(c, path + ".settings.", identity.settings);
    Regroup(found, One(!good, path + ".role", LOWERCASE),
      Each(path + ".settings.", BadSettings(identity.settings), SETTING));
  }

  method ValidateSettings(c: Collector, prefix: string, settings: map<string, string>)
    modifies c
    ensures c.Found() == old(c.Found()) + Each(prefix, BadSettings(settings), SETTING)
  {
    hide IsSettingName, One, Each, Collector.Found;
    ghost var found := c.Found();
    var todo := settings.Keys;
    ghost var bad: set<string> := {};
    EachNone(prefix, SETTING);
    while todo != {}
      invariant todo <= settings.Keys
      invariant forall n :: n in bad <==> n in settings && n !in todo && !IsSettingName(n)
      invariant c.Found() == found + Each(prefix, bad, SETTING)
    {
      var name :| name in todo;
      todo := todo - {name};
      var good := CheckSettingName(name);
      if !good {
        c.Add(prefix + name, SETTING);
        Regroup(found, Each(prefix, bad, SETTING), One(true, prefix + name, SETTING));
        EachGrows(prefix, bad, name, SETTING);
        bad := bad + {name};
      }
    }
    assert bad == BadSettings(settings);
  }

  lemma Regroup(found: multiset<Diagnostic>, a: multiset<Diagnostic>, b: multiset<Diagnostic>)
    ensures found + a + b == found + (a + b)
  {
  }

  lemma Regroup4(found: multiset<Diagnostic>, a: multiset<Diagnostic>, b: multiset<Diagnostic>,
          c: multiset<Diagnostic>, d: multiset<Diagnostic>)
    ensures found + a + b + c + d == found + (a + b + c + d)
  {
    Regroup(found, a, b);
    Regroup(found, a + b, c);
    Regroup(found, a + b + c, d);
  }

  lemma EachNone(prefix: string, message: string)
    ensures Each(prefix, {}, message) == multiset{}
  {
  }

  method ValidateFixture(c: Collector, i: nat, f: Fixture)
    modifies c
    ensures c.Found() == old(c.Found()) + FixtureProblems(i, f)
  {
    hide IsIdentifier, One, Each, SensitiveProblems, BadColumns, FixturePath, Collector.Found;
    ghost var found := c.Found();
    var path := FixturePath(i);
    var good := CheckIdentifier(f.table);
    c.AddIf(!good, path + ".table", LOWERCASE);
    c.AddIf(|f.ownerRow| == 0, path + ".owner_row", ONE_COLUMN);
    ValidateRow(c, path + ".owner_row.", f.ownerRow);
    ValidateSensitive(c, path, f.sensitiveColumns);
    Regroup4(found, One(!good, path + ".table", LOWERCASE), One(f.ownerRow == map[], path + ".owner_row", ONE_COLUMN),
      Each(path + ".owner_row.", BadColumns(f.ownerRow), LOWERCASE), SensitiveProblems(path, f.sensitiveColumns,
        |f.sensitiveColumns|));
  }

  method ValidateRow(c: Collector, prefix: string, row: Row)
    modifies c
    ensures c.Found() == old(c.Found()) + Each(prefix, BadColumns(row), LOWERCASE)
  {
    hide IsIdentifier, One, Each, Collector.Found;
    ghost var found := c.Found();
    var todo := row.Keys;
    ghost var bad: set<string> := {};
    EachNone(prefix, LOWERCASE);
    while todo != {}
      invariant todo <= row.Keys
      invariant forall n :: n in bad <==> n in row && n !in todo && !IsIdentifier(n)
      invariant c.Found() == found + Each(prefix, bad, LOWERCASE)
    {
      var name :| name in todo;
      todo := todo - {name};
      var good := CheckIdentifier(name);
      if !good {
        c.Add(prefix + name, LOWERCASE);
        Regroup(found, Each(prefix, bad, LOWERCASE), One(true, prefix + name, LOWERCASE));
        EachGrows(prefix, bad, name, LOWERCASE);
        bad := bad + {name};
      }
    }
    assert bad == BadColumns(row);
  }

  method ValidateSensitive(c: Collector, path: string, columns: seq<string>)
    modifies c
    ensures c.Found() == old(c.Found()) + SensitiveProblems(path, columns, |columns|)
  {
    hide IsIdentifier, One, Collector.Found;
    ghost var found := c.Found();
    for k := 0 to |columns|
      invariant c.Found() == found + SensitiveProblems(path, columns, k)
    {
      var good := CheckIdentifier(columns[k]);
      c.AddIf(!good, path + ".sensitive_columns", "contains an invalid identifier");
      Regroup(found, SensitiveProblems(path, columns, k),
        One(!good, path + ".sensitive_columns", "contains an invalid identifier"));
    }
  }

  /** The places of a table among the first n fixtures. */
  function IndicesOf(fixtures: seq<Fixture>, table: string, n: nat): (r: seq<nat>)
    requires n <= |fixtures|
    ensures r != [] <==> exists k :: 0 <= k < n && fixtures[k].table == table
  {
    if n == 0 then []
    else IndicesOf(fixtures, table, n - 1) + if fixtures[n - 1].table == table then [n - 1] else []
  }

  /** The table index after the first n fixtures. */
  ghost predicate Indexed(byTable: map<string, seq<nat>>, fixtures: seq<Fixture>, n: nat)
    requires n <= |fixtures|
  {
    forall t ::
      && (t in byTable <==> IndicesOf(fixtures, t, n) != [])
      && (t in byTable ==> byTable[t] == IndicesOf(fixtures, t, n))
  }

  lemma NothingIndexed(fixtures: seq<Fixture>)
    ensures Indexed(map[], fixtures, 0)
  {
  }

  lemma IndexedStep(byTable: map<string, seq<nat>>, fixtures: seq<Fixture>, i: nat)
    requires i < |fixtures| && Indexed(byTable, fixtures, i)
    ensures var t := fixtures[i].table;
      Indexed(byTable[t := (if t in byTable then byTable[t] else []) + [i]], fixtures, i + 1)
  {
    var t := fixtures[i].table;
    var next := byTable[t := (if t in byTable then byTable[t] else []) + [i]];
    forall u
      ensures u in next <==> IndicesOf(fixtures, u, i + 1) != []
      ensures u in next ==> next[u] == IndicesOf(fixtures, u, i + 1)
    {
      assert u in byTable <==> IndicesOf(fixtures, u, i) != [];
      assert IndicesOf(fixtures, u, i + 1) == IndicesOf(fixtures, u, i) + if u == t then [i] else [];
    }
  }

  method ValidateFixtures(c: Collector, fixtures: seq<Fixture>) returns (byTable: map<string, seq<nat>>)
    modifies c
    ensures c.Found() == old(c.Found()) + FixturesProblems(fixtures, |fixtures|)
    ensures Indexed(byTable, fixtures, |fixtures|)
  {
    hide FixtureProblems, Collector.Found, Indexed;
    NothingIndexed(fixtures);
    ghost var found := c.Found();
    byTable := map[];
    for i := 0 to |fixtures|
      invariant c.Found() == found + FixturesProblems(fixtures, i)
      invariant Indexed(byTable, fixtures, i)
    {
      ValidateFixture(c, i, fixtures[i]);
      Regroup(found, FixturesProblems(fixtures, i), FixtureProblems(i, fixtures[i]));
      IndexedStep(byTable, fixtures, i);
      var t := fixtures[i].table;
      byTable := byTable[t := (if t in byTable then byTable[t] else []) + [i]];
    }
  }

  method ValidateColumns(c: Collector, path: string, columns: seq<string>)
    modifies c
    ensures c.Found() == old(c.Found()) + ColumnProblems(path, columns, |columns|)
  {
    hide IsIdentifier, One, ItemPath, Collector.Found;
    ghost var found := c.Found();
    var seen: map<string, bool> := map[];
    for i := 0 to |columns|
      invariant forall x :: x in seen <==> x in columns[..i]
      invariant c.Found() == found + ColumnProblems(path, columns, i)
    {
      var good := CheckIdentifier(columns[i]);
      c.AddIf(!good, ItemPath(path, i), LOWERCASE);
      c.AddIf(columns[i] in seen, ItemPath(path, i), "duplicates a previous column");
      Regroup(found, ColumnProblems(path, columns, i), One(!good, ItemPath(path, i), LOWERCASE));
      Regroup(found, ColumnProblems(path, columns, i) + One(!good, ItemPath(path, i), LOWERCASE),
        One(columns[i] in columns[..i], ItemPath(path, i), "duplicates a previous column"));
      seen := seen[columns[i] := true];
      assert columns[..i + 1] == columns[..i] + [columns[i]];
    }
  }

  method ValidateOperations(c: Collector, path: string, ops: seq<Operation>)
    modifies c
    ensures c.Found() == old(c.Found()) + OperationProblems(path, ops, |ops|)
  {
    hide One, ItemPath, Collector.Found;
    ghost var found := c.Found();
    for i := 0 to |ops|
      invariant c.Found() == found + OperationProblems(path, ops, i)
    {
      c.AddIf(!ops[i].Valid(), ItemPath(path + ".operations", i), "is not supported");
      Regroup(found, OperationProblems(path, ops, i),
        One(!ops[i].Valid(), ItemPath(path + ".operations", i), "is not supported"));
    }
  }

  /** The first attack on each table among the first n. */
  ghost predicate FirstOfEach(byTable: map<string, nat>, attacks: seq<Attack>, n: nat)
    requires n <= |attacks|
  {
    forall t :: FirstAttack(attacks, t, n) == if t in byTable then Some(byTable[t]) else None
  }

  method ValidateAttack(c: Collector, p: Profile, i: nat, fixturesByTable: map<string, seq<nat>>,
          attacksByTable: map<string, nat>)
    requires i < |p.attacks|
    requires Indexed(fixturesByTable, p.fixtures, |p.fixtures|) && FirstOfEach(attacksByTable, p.attacks, i)
    modifies c
    ensures c.Found() == old(c.Found()) + AttackProblems(p, i)
  {
    hide IsIdentifier, One, AttackPath, FirstAttack, IndicesOf, AttackListProblems, Collector.Found;
    ghost var found := c.Found();
    var a := p.attacks[i];
    var path := AttackPath(i);
    var good := CheckIdentifier(a.table);
    c.AddIf(!good, path + ".table", LOWERCASE);
    if a.table in attacksByTable {
      c.Add(path + ".table", "duplicates " + AttackPath(attacksByTable[a.table]) + ".table");
    }
    ghost var x, y := One(!good, path + ".table", LOWERCASE), Duplicate(path, FirstAttack(p.attacks, a.table, i));
    assert c.Found() == found + x + y;
    ValidateLists(c, path, a);
    c.AddIf(a.table !in fixturesByTable, path + ".table", "must reference a fixture table");
    assert a.table in fixturesByTable <==> HasFixture(p.fixtures, a.table);
    Around(found, x, y, AttackListProblems(a, path),
      One(a.table !in fixturesByTable, path + ".table", "must reference a fixture table"));
  }

  lemma Around(found: multiset<Diagnostic>, a: multiset<Diagnostic>, b: multiset<Diagnostic>,
          c: multiset<Diagnostic>, d: multiset<Diagnostic>)
    ensures found + a + b + c + d == found + (a + b + d + c)
  {
  }

  method ValidateLists(c: Collector, path: string, a: Attack)
    modifies c
    ensures c.Found() == old(c.Found()) + AttackListProblems(a, path)
  {
    hide One, ColumnProblems, OperationProblems, Collector.Found;
    ghost var found := c.Found();
    c.AddIf(|a.primaryKey| == 0, path + ".primary_key", ONE_COLUMN);
    ValidateColumns(c, path + ".primary_key", a.primaryKey);
    ValidateColumns(c, path + ".protected_columns", a.protectedColumns);
    c.AddIf(|a.operations| == 0, path + ".operations", "must contain at least one operation");
    ValidateOperations(c, path, a.operations);
    ghost var x, y := One(a.primaryKey
      == [], path + ".primary_key", ONE_COLUMN), ColumnProblems(path + ".primary_key", a.primaryKey, |a.primaryKey|);
    ghost var z := ColumnProblems(path + ".protected_columns", a.protectedColumns, |a.protectedColumns|);
    ghost var w := One(a.operations == [], path + ".operations", "must contain at least one operation");
    Regroup4(found, x, y, z, w);
    Regroup(found, x + y + z + w, OperationProblems(path, a.operations, |a.operations|));
  }

  method ValidateAttacks(c: Collector, p: Profile, fixturesByTable: map<string, seq<nat>>)
    returns (attacksByTable: map<string, nat>)
    requires Indexed(fixturesByTable, p.fixtures, |p.fixtures|)
    modifies c
    ensures c.Found() == old(c.Found()) + AttacksProblems(p, |p.attacks|)
    ensures FirstOfEach(attacksByTable, p.attacks, |p.attacks|)
  {
    hide AttackProblems, Indexed, Collector.Found;
    ghost var found := c.Found();
    attacksByTable := map[];
    for i := 0 to |p.attacks|
      invariant c.Found() == found + AttacksProblems(p, i)
      invariant FirstOfEach(attacksByTable, p.attacks, i)
    {
      ValidateAttack(c, p, i, fixturesByTable, attacksByTable);
      Regroup(found, AttacksProblems(p, i), AttackProblems(p, i));
      if p.attacks[i].table !in attacksByTable {
        attacksByTable := attacksByTable[p.attacks[i].table := i];
      }
    }
  }

  lemma {:induction false} IndexAt(fixtures: seq<Fixture>, table: string, n: nat, k: nat)
    requires n <= |fixtures| && k < |IndicesOf(fixtures, table, n)|
    ensures var list := IndicesOf(fixtures, table, n);
      list[k] < n && fixtures[list[k]].table == table && IndicesOf(fixtures, table, list[k]) == list[..k]
  {
    var before := IndicesOf(fixtures, table, n - 1);
    if k < |before| {
      IndexAt(fixtures, table, n - 1, k);
      assert IndicesOf(fixtures, table, n)[..k] == before[..k];
    } else {
      assert IndicesOf(fixtures, table, n)[..k] == before;
    }
  }

  /** Between two places with no fixture of the table, nothing about the table changes. */
  lemma {:induction false} NothingBetween(p: Profile, table: string, columns: seq<string>, m: nat, n: nat)
    requires m <= n <= |p.fixtures| && IndicesOf(p.fixtures, table, m) == IndicesOf(p.fixtures, table, n)
    ensures TableProblems(p, {table}, m) == TableProblems(p, {table}, n)
    ensures forall key ::
      FirstWithKey(p.fixtures, table, columns, key, m) == FirstWithKey(p.fixtures, table, columns, key, n)
    decreases n - m
  {
    hide KeyProblem, KeyOf;
    if m < n {
      IndicesGrow(p.fixtures, table, m, n - 1);
      NothingBetween(p, table, columns, m, n - 1);
    }
  }

  lemma {:induction false} IndicesGrow(fixtures: seq<Fixture>, table: string, m: nat, n: nat)
    requires m <= n <= |fixtures|
    ensures IndicesOf(fixtures, table, m) <= IndicesOf(fixtures, table, n)
    decreases n - m
  {
    if m < n {
      IndicesGrow(fixtures, table, m, n - 1);
    }
  }

  /** The keys of one table's fixtures, met so far. */
  ghost predicate Seen(seen: map<string, nat>, fixtures: seq<Fixture>, table: string, columns: seq<string>, n: nat)
    requires n <= |fixtures|
  {
    forall key :: FirstWithKey(fixtures, table, columns, key, n) == if key in seen then Some(seen[key]) else None
  }

  method ValidateUnmatched(c: Collector, p: Profile, table: string, list: seq<nat>)
    requires list == IndicesOf(p.fixtures, table, |p.fixtures|)
    requires FirstAttack(p.attacks, table, |p.attacks|) == None
    modifies c
    ensures c.Found() == old(c.Found()) + TableProblems(p, {table}, |p.fixtures|)
  {
    hide FixturePath, One, TableProblems, IndicesOf, Collector.Found;
    ghost var found := c.Found();
    ghost var next: nat := 0;
    Start(p, table, found);
    for k := 0 to |list|
      invariant next <= |p.fixtures| && IndicesOf(p.fixtures, table, next) == list[..k]
      invariant c.Found() == found + TableProblems(p, {table}, next)
    {
      IndexAt(p.fixtures, table, |p.fixtures|, k);
      Reach(p, table, [], next, list[k], list[..k]);
      c.Add(FixturePath(list[k]) + ".table", "must have a matching attack target");
      Onward(p, table, list, k, found);
      next := list[k] + 1;
    }
    assert list[..|list|] == list;
    Reach(p, table, [], next, |p.fixtures|, list);
  }

  lemma Start(p: Profile, table: string, found: multiset<Diagnostic>)
    ensures IndicesOf(p.fixtures, table, 0) == [] && found + TableProblems(p, {table}, 0) == found
  {
  }

  /** Past the k-th fixture of a table. */
  lemma Onward(p: Profile, table: string, list: seq<nat>, k: nat, found: multiset<Diagnostic>)
    requires k < |list| && list[k] < |p.fixtures| && p.fixtures[list[k]].table == table
    requires IndicesOf(p.fixtures, table, list[k]) == list[..k]
    ensures IndicesOf(p.fixtures, table, list[k] + 1) == list[..k + 1]
    ensures found + TableProblems(p, {table}, list[k] + 1)
      == found + TableProblems(p, {table}, list[k]) + KeyProblem(p, list[k])
  {
    hide KeyProblem;
    Regroup(found, TableProblems(p, {table}, list[k]), KeyProblem(p, list[k]));
  }

  lemma Reach(p: Profile, table: string, columns: seq<string>, m: nat, n: nat, list: seq<nat>)
    requires m <= |p.fixtures| && n <= |p.fixtures|
    requires IndicesOf(p.fixtures, table, m) == list == IndicesOf(p.fixtures, table, n)
    ensures TableProblems(p, {table}, m) == TableProblems(p, {table}, n)
    ensures forall key ::
      FirstWithKey(p.fixtures, table, columns, key, m) == FirstWithKey(p.fixtures, table, columns, key, n)
  {
    if m <= n {
      NothingBetween(p, table, columns, m, n);
    } else {
      NothingBetween(p, table, columns, n, m);
    }
  }

  method ValidateKeys(c: Collector, p: Profile, table: string, list: seq<nat>, i: nat)
    requires list == IndicesOf(p.fixtures, table, |p.fixtures|)
    requires FirstAttack(p.attacks, table, |p.attacks|) == Some(i)
    modifies c
    ensures c.Found() == old(c.Found()) + TableProblems(p, {table}, |p.fixtures|)
  {
    hide FixturePath, KeyOf, One, TableProblems, IndicesOf, FirstWithKey, Seen, Collector.Found;
    ghost var found := c.Found();
    var columns := p.attacks[i].primaryKey;
    var seen: map<string, nat> := map[];
    ghost var next: nat := 0;
    Start(p, table, found);
    NothingSeen(p.fixtures, table, columns);
    for k := 0 to |list|
      invariant next <= |p.fixtures| && IndicesOf(p.fixtures, table, next) == list[..k]
      invariant Seen(seen, p.fixtures, table, columns, next)
      invariant c.Found() == found + TableProblems(p, {table}, next)
    {
      var j := list[k];
      IndexAt(p.fixtures, table, |p.fixtures|, k);
      Reach(p, table, columns, next, j, list[..k]);
      SeenFurther(seen, p.fixtures, table, columns, next, j);
      var key := FixtureKey(p.fixtures[j].ownerRow, columns);
      if key == None {
        c.Add(FixturePath(j) + ".owner_row", "must include every attack primary-key column");
      } else if key.value in seen {
        SeenAt(seen, p.fixtures, table, columns, j, key.value);
        c.Add(FixturePath(j) + ".owner_row", "duplicates fixture key in " + FixturePath(seen[key.value]));
      } else {
        SeenAt(seen, p.fixtures, table, columns, j, key.value);
        NothingFound(c);
        seen := seen[key.value := j];
      }
      Onward(p, table, list, k, found);
      next := j + 1;
    }
    assert list[..|list|] == list;
    Reach(p, table, columns, next, |p.fixtures|, list);
  }

  lemma NothingFound(c: Collector)
    ensures c.Found() + multiset{} == c.Found()
  {
  }

  lemma NothingSeen(fixtures: seq<Fixture>, table: string, columns: seq<string>)
    ensures Seen(map[], fixtures, table, columns, 0)
  {
  }

  lemma SeenAt(seen: map<string, nat>, fixtures: seq<Fixture>, table: string, columns: seq<string>, j: nat, key: string)
    requires j < |fixtures| && fixtures[j].table == table && KeyOf(fixtures[j].ownerRow, columns) == Some(key)
    requires Seen(seen, fixtures, table, columns, j)
    ensures FirstWithKey(fixtures, table, columns, key, j) == if key in seen then Some(seen[key]) else None
    ensures Seen(if key in seen then seen else seen[key := j], fixtures, table, columns, j + 1)
  {
    hide KeyOf;
  }

  lemma SeenFurther(seen: map<string, nat>, fixtures: seq<Fixture>, table: string, columns: seq<string>, m: nat, n: nat)
    requires m <= |fixtures| && n <= |fixtures| && Seen(seen, fixtures, table, columns, m)
    requires forall key ::
      FirstWithKey(fixtures, table, columns, key, m) == FirstWithKey(fixtures, table, columns, key, n)
    ensures Seen(seen, fixtures, table, columns, n)
    ensures n < |fixtures| && KeyOf(fixtures[n].ownerRow, columns) == None ==>
      Seen(seen, fixtures, table, columns, n + 1)
  {
    hide KeyOf;
    forall key ensures FirstWithKey(fixtures, table, columns, key, n) == if key in seen then Some(seen[key]) else None {
      assert FirstWithKey(fixtures, table, columns, key, m) == FirstWithKey(fixtures, table, columns, key, n);
    }
  }

  lemma {:induction false} TablesGrow(p: Profile, tables: set<string>, table: string, n: nat)
    requires table !in tables && n <= |p.fixtures|
    ensures TableProblems(p, tables + {table}, n) == TableProblems(p, tables, n) + TableProblems(p, {table}, n)
  {
    hide KeyProblem;
    if n > 0 {
      TablesGrow(p, tables, table, n - 1);
    }
  }

  lemma {:induction false} NoTables(p: Profile, n: nat)
    requires n <= |p.fixtures|
    ensures TableProblems(p, {}, n) == multiset{}
  {
    if n > 0 {
      NoTables(p, n - 1);
    }
  }

  lemma IndexedTables(byTable: map<string, seq<nat>>, fixtures: seq<Fixture>)
    requires Indexed(byTable, fixtures, |fixtures|)
    ensures byTable.Keys == TablesOf(fixtures)
  {
    forall t ensures t in byTable <==> t in TablesOf(fixtures) {
      assert t in byTable <==> IndicesOf(fixtures, t, |fixtures|) != [];
    }
  }

  method ValidateTables(c: Collector, p: Profile, fixturesByTable: map<string, seq<nat>>,
          attacksByTable: map<string, nat>)
    requires Indexed(fixturesByTable, p.fixtures, |p.fixtures|) && FirstOfEach(attacksByTable, p.attacks, |p.attacks|)
    modifies c
    ensures c.Found() == old(c.Found()) + TableProblems(p, TablesOf(p.fixtures), |p.fixtures|)
  {
    hide IndicesOf, TableProblems, FirstAttack, Collector.Found;
    ghost var found := c.Found();
    IndexedTables(fixturesByTable, p.fixtures);
    NoTables(p, |p.fixtures|);
    var todo := fixturesByTable.Keys;
    assert fixturesByTable.Keys - todo == {};
    NothingFound(c);
    while todo != {}
      invariant todo <= fixturesByTable.Keys
      invariant c.Found() == found + TableProblems(p, fixturesByTable.Keys - todo, |p.fixtures|)
    {
      var table :| table in todo;
      ghost var past := fixturesByTable.Keys - todo;
      TablesGrow(p, past, table, |p.fixtures|);
      Regroup(found, TableProblems(p, past, |p.fixtures|), TableProblems(p, {table}, |p.fixtures|));
      todo := todo - {table};
      assert fixturesByTable.Keys - todo == past + {table};
      if table !in attacksByTable {
        ValidateUnmatched(c, p, table, fixturesByTable[table]);
      } else {
        ValidateKeys(c, p, table, fixturesByTable[table], attacksByTable[table]);
      }
    }
    assert fixturesByTable.Keys - {} == fixturesByTable.Keys;
  }

  lemma Unit(a: multiset<Diagnostic>)
    ensures multiset{} + a == a
  {
  }

  lemma CollectedFrom(c: Collector)
    ensures c.Found() == multiset(c.diagnostics) && (c.diagnostics == [] <==> c.Found() == multiset{})
  {
    if c.diagnostics != [] {
      assert c.diagnostics[0] in c.Found();
    }
  }

  /** The report is what `Diagnose` says, in `Ordered`'s one order, whatever order the maps were walked in. */
  method Validate(p: Profile) returns (invalid: Option<seq<Diagnostic>>)
    ensures invalid == if Diagnose(p) == multiset{} then None else Some(Ordered(Diagnose(p)))
  {
    hide IsIdentifier, One, IdentityProblems, FixturesProblems, AttacksProblems, TableProblems, Indexed, FirstOfEach;
    hide Collector.Found;
    var c := new Collector();
    CollectedFrom(c);
    Unit(One(p.version != SUPPORTED_VERSION, "version", "must be 1"));
    c.AddIf(p.version != SUPPORTED_VERSION, "version", "must be 1");
    var good := CheckIdentifier(p.schema);
    c.AddIf(!good, "database.schema", LOWERCASE);
    c.AddIf(!p.requireDisposable, "database.require_disposable", "must be true");
    ValidateIdentity(c, "identity.owner", p.owner);
    ValidateIdentity(c, "identity.adversary", p.adversary);
    var fixturesByTable := ValidateFixtures(c, p.fixtures);
    c.AddIf(|p.fixtures| == 0, "fixtures", "must contain at least one fixture");
    var attacksByTable := ValidateAttacks(c, p, fixturesByTable);
    c.AddIf(|p.attacks| == 0, "attacks", "must contain at least one attack");
    ValidateTables(c, p, fixturesByTable, attacksByTable);
    CollectedFrom(c);
    if |c.diagnostics| == 0 {
      return None;
    }
    var sorted := SortDiagnostics(c.diagnostics);
    return Some(sorted);
  }

  /** Whatever an unstable sort does with the diagnostics, in whatever order they were found, it ends in the report. */
  lemma OneReport(p: Profile, list: seq<Diagnostic>)
    requires Sorted(list, DiagnosticLeq) && multiset(list) == Diagnose(p)
    ensures list == Ordered(Diagnose(p))
  {
    hide *;
    DiagnosticOrder();
    SortedUnique(list, Ordered(Diagnose(p)), DiagnosticLeq);
  }

  /** The report is ordered by path, and at one path by message. */
  lemma ReportIsOrdered(p: Profile, i: nat, j: nat)
    requires i < j < |Ordered(Diagnose(p))|
    ensures var r := Ordered(Diagnose(p));
      StringLeq(r[i].path, r[j].path) && (r[i].path == r[j].path ==> StringLeq(r[i].message, r[j].message))
  {
    var r := Ordered(Diagnose(p));
    assert DiagnosticLeq(r[i], r[j]);
    StringLeqTotal(r[i].path, r[j].path);
    hide Ordered, Diagnose;
  }

  /** A setting name has a dot, and two identifiers with a dot between them are one. */
  lemma DotIsNeeded(value: string, first: string, second: string)
    ensures IsSettingName(value) ==> '.' in value
    ensures IsIdentifier(first) && IsIdentifier(second) ==> IsSettingName(first + "." + second)
  {
    hide IsIdentifier;
    if IsSettingName(value) {
      var parts: seq<string> :|
        |parts| >= 2 && (forall i :: 0 <= i < |parts| ==> IsIdentifier(parts[i])) && value == Join(parts, ".");
      assert value[|parts[0]|] == '.';
    }
    var two := [first, second];
    assert two[1..] == [second];
    assert Join(two, ".") == first + "." + second;
  }

  // ---------- what acceptance means ----------

  ghost predicate GoodIdentity(identity: Identity) {
    IsIdentifier(identity.role) && forall n :: n in identity.settings ==> IsSettingName(n)
  }

  predicate GoodFixture(f: Fixture) {
    && IsIdentifier(f.table) && f.ownerRow != map[]
    && (forall c :: c in f.ownerRow ==> IsIdentifier(c))
    && forall c :: c in f.sensitiveColumns ==> IsIdentifier(c)
  }

  predicate GoodColumns(columns: seq<string>) {
    && (forall c :: c in columns ==> IsIdentifier(c))
    && forall i, j :: 0 <= i < j < |columns| ==> columns[i] != columns[j]
  }

  predicate GoodEntry(a: Attack) {
    && IsIdentifier(a.table) && a.primaryKey != [] && GoodColumns(a.primaryKey) && GoodColumns(a.protectedColumns)
    && a.operations != []
  }

  predicate GoodAttack(a: Attack) {
    GoodEntry(a) && forall op :: op in a.operations ==> op.Valid()
  }

  /** The fixtures of an attacked table all have its key columns, and different keys. */
  predicate GoodKeys(fixtures: seq<Fixture>, a: Attack) {
    && (forall i :: 0 <= i < |fixtures| && fixtures[i].table == a.table ==>
        KeyOf(fixtures[i].ownerRow, a.primaryKey).Some?)
    && forall i, j :: 0 <= i < j < |fixtures| && fixtures[i].table == a.table == fixtures[j].table
         ==> KeyOf(fixtures[i].ownerRow, a.primaryKey) != KeyOf(fixtures[j].ownerRow, a.primaryKey)
  }

  predicate HasAttack(attacks: seq<Attack>, table: string) {
    exists k :: 0 <= k < |attacks| && attacks[k].table == table
  }

  ghost predicate GoodHeader(p: Profile) {
    && p.version == SUPPORTED_VERSION && IsIdentifier(p.schema) && p.requireDisposable
    && GoodIdentity(p.owner) && GoodIdentity(p.adversary)
  }

  /** Well formed but for the operations' names. */
  ghost predicate Shaped(p: Profile) {
    && GoodHeader(p)
    && p.fixtures != [] && p.attacks != []
    && (forall i :: 0 <= i < |p.fixtures| ==> GoodFixture(p.fixtures[i]) && HasAttack(p.attacks, p.fixtures[i].table))
    && (forall i :: 0 <= i < |p.attacks| ==> GoodEntry(p.attacks[i]) && HasFixture(p.fixtures, p.attacks[i].table))
    && (forall i, j :: 0 <= i < j < |p.attacks| ==> p.attacks[i].table != p.attacks[j].table)
    && forall i :: 0 <= i < |p.attacks| ==> GoodKeys(p.fixtures, p.attacks[i])
  }

  ghost predicate WellFormed(p: Profile) {
    Shaped(p) && AllSupported(p)
  }

  lemma Empty(a: multiset<Diagnostic>, b: multiset<Diagnostic>)
    ensures a + b == multiset{} <==> a == multiset{} && b == multiset{}
  {
    assert |a + b| == |a| + |b|;
  }

  lemma EachIsEmpty(prefix: string, names: set<string>, message: string)
    ensures Each(prefix, names, message) == multiset{} <==> names == {}
  {
    if names != {} {
      var n :| n in names;
      assert Diagnostic(prefix + n, message) in Each(prefix, names, message);
    }
  }

  lemma IdentityIsGood(path: string, identity: Identity)
    ensures IdentityProblems(path, identity) == multiset{} <==> GoodIdentity(identity)
  {
    hide IsIdentifier, IsSettingName, Each;
    EachIsEmpty(path + ".settings.", BadSettings(identity.settings), SETTING);
    if n :| n in identity.settings && !IsSettingName(n) {
      assert n in BadSettings(identity.settings);
    } else {
      assert BadSettings(identity.settings) == {};
    }
    Empty(One(!IsIdentifier(identity.role), path + ".role", LOWERCASE),
      Each(path + ".settings.", BadSettings(identity.settings), SETTING));
  }

  lemma {:induction false} SensitiveAreGood(path: string, columns: seq<string>, n: nat)
    requires n <= |columns|
    ensures SensitiveProblems(path, columns, n) == multiset{} <==> forall i :: 0 <= i < n ==> IsIdentifier(columns[i])
  {
    hide IsIdentifier;
    if n > 0 {
      SensitiveAreGood(path, columns, n - 1);
    }
  }

  lemma FixtureIsGood(i: nat, f: Fixture)
    ensures FixtureProblems(i, f) == multiset{} <==> GoodFixture(f)
  {
    hide IsIdentifier, Each, FixturePath, SensitiveProblems;
    EachIsEmpty(FixturePath(i) + ".owner_row.", BadColumns(f.ownerRow), LOWERCASE);
    if c :| c in f.ownerRow && !IsIdentifier(c) {
      assert c in BadColumns(f.ownerRow);
    } else {
      assert BadColumns(f.ownerRow) == {};
    }
    SensitiveAreGood(FixturePath(i), f.sensitiveColumns, |f.sensitiveColumns|);
  }

  lemma {:induction false} FixturesAreGood(fixtures: seq<Fixture>, n: nat)
    requires n <= |fixtures|
    ensures FixturesProblems(fixtures, n) == multiset{} <==> forall i :: 0 <= i < n ==> GoodFixture(fixtures[i])
  {
    hide FixtureProblems, GoodFixture;
    if n > 0 {
      FixturesAreGood(fixtures, n - 1);
      FixtureIsGood(n - 1, fixtures[n - 1]);
    }
  }

  lemma NoColumns()
    ensures GoodColumns([])
  {
  }

  lemma OneMoreColumn(columns: seq<string>, c: string)
    ensures GoodColumns(columns + [c]) <==> GoodColumns(columns) && IsIdentifier(c) && c !in columns
  {
    hide IsIdentifier;
    var all := columns + [c];
    assert forall i :: 0 <= i < |columns| ==> all[i] == columns[i];
    assert all[|columns|] == c;
    if GoodColumns(all) {
      forall x | x in columns ensures IsIdentifier(x) && x != c {
        var i :| 0 <= i < |columns| && columns[i] == x;
        assert all[i] in all && all[i] != all[|columns|];
      }
      assert c in all;
    }
  }

  lemma {:induction false} ColumnsAreGood(path: string, columns: seq<string>, n: nat)
    requires n <= |columns|
    ensures ColumnProblems(path, columns, n) == multiset{} <==> GoodColumns(columns[..n])
  {
    hide IsIdentifier, ItemPath, GoodColumns;
    if n > 0 {
      ColumnsAreGood(path, columns, n - 1);
      assert columns[..n] == columns[..n - 1] + [columns[n - 1]];
      OneMoreColumn(columns[..n - 1], columns[n - 1]);
      var x, y := One(!IsIdentifier(columns[n - 1]), ItemPath(path, n - 1), LOWERCASE),
        One(columns[n - 1] in columns[..n - 1], ItemPath(path, n - 1), "duplicates a previous column");
      Empty(ColumnProblems(path, columns, n - 1), x);
      Empty(ColumnProblems(path, columns, n - 1) + x, y);
    } else {
      assert columns[..0] == [];
      NoColumns();
    }
  }

  lemma {:induction false} OperationsAreGood(path: string, ops: seq<Operation>, n: nat)
    requires n <= |ops|
    ensures OperationProblems(path, ops, n) == multiset{} <==> forall i :: 0 <= i < n ==> ops[i].Valid()
  {
    hide ItemPath;
    if n > 0 {
      OperationsAreGood(path, ops, n - 1);
    }
  }

  /** One attack on its own: its fields, no earlier attack on the table, and some fixture. */
  lemma AttackIsGood(p: Profile, i: nat)
    requires i < |p.attacks|
    ensures AttackProblems(p, i) == multiset{} <==>
      && GoodAttack(p.attacks[i]) && HasFixture(p.fixtures, p.attacks[i].table)
      && forall k :: 0 <= k < i ==> p.attacks[k].table != p.attacks[i].table
  {
    hide IsIdentifier, AttackPath, ColumnProblems, OperationProblems, GoodColumns, HasFixture;
    var a, path := p.attacks[i], AttackPath(i);
    ColumnsAreGood(path + ".primary_key", a.primaryKey, |a.primaryKey|);
    ColumnsAreGood(path + ".protected_columns", a.protectedColumns, |a.protectedColumns|);
    OperationsAreGood(path, a.operations, |a.operations|);
    assert a.primaryKey[..|a.primaryKey|] == a.primaryKey;
    assert a.protectedColumns[..|a.protectedColumns|] == a.protectedColumns;
  }

  lemma {:induction false} AttacksAreGood(p: Profile, n: nat)
    requires n <= |p.attacks|
    ensures AttacksProblems(p, n) == multiset{} <==>
      && (forall i :: 0 <= i < n ==> GoodAttack(p.attacks[i]) && HasFixture(p.fixtures, p.attacks[i].table))
      && forall i, j :: 0 <= i < j < n ==> p.attacks[i].table != p.attacks[j].table
  {
    hide AttackProblems, GoodAttack, HasFixture;
    if n > 0 {
      AttacksAreGood(p, n - 1);
      AttackIsGood(p, n - 1);
    }
  }

  /** If attack i is on fixture j's table: the fixture has its key columns, and no earlier fixture of the table has
      its key. */
  predicate NewKey(p: Profile, i: nat, j: nat)
    requires i < |p.attacks| && j < |p.fixtures|
  {
    var t, columns := p.attacks[i].table, p.attacks[i].primaryKey;
    p.fixtures[j].table == t ==>
      && KeyOf(p.fixtures[j].ownerRow, columns).Some?
      && forall k :: 0 <= k < j && p.fixtures[k].table == t
           ==> KeyOf(p.fixtures[k].ownerRow, columns) != KeyOf(p.fixtures[j].ownerRow, columns)
  }

  lemma KeyIsGood(p: Profile, j: nat)
    requires j < |p.fixtures|
    requires forall i, k :: 0 <= i < k < |p.attacks| ==> p.attacks[i].table != p.attacks[k].table
    ensures KeyProblem(p, j) == multiset{} <==>
      HasAttack(p.attacks, p.fixtures[j].table) && forall i :: 0 <= i < |p.attacks| ==> NewKey(p, i, j)
  {
    hide KeyOf, FixturePath;
    var first := FirstAttack(p.attacks, p.fixtures[j].table, |p.attacks|);
    if first.Some? {
      assert forall i :: 0 <= i < |p.attacks| && p.attacks[i].table == p.fixtures[j].table ==> i == first.value;
      assert (forall i :: 0 <= i < |p.attacks| ==> NewKey(p, i, j)) <==> NewKey(p, first.value, j);
    }
  }

  lemma {:induction false} KeysAreGood(p: Profile, n: nat)
    requires n <= |p.fixtures|
    ensures TableProblems(p, TablesOf(p.fixtures), n) == multiset{}
      <==> forall j :: 0 <= j < n ==> KeyProblem(p, j) == multiset{}
  {
    hide KeyProblem;
    if n > 0 {
      KeysAreGood(p, n - 1);
      assert p.fixtures[n - 1] in p.fixtures;
    }
  }

  lemma KeysAreNew(p: Profile, i: nat)
    requires i < |p.attacks|
    ensures GoodKeys(p.fixtures, p.attacks[i]) <==> forall j :: 0 <= j < |p.fixtures| ==> NewKey(p, i, j)
  {
    hide KeyOf;
    if forall j :: 0 <= j < |p.fixtures| ==> NewKey(p, i, j) {
      forall j | 0 <= j < |p.fixtures| && p.fixtures[j].table == p.attacks[i].table
        ensures KeyOf(p.fixtures[j].ownerRow, p.attacks[i].primaryKey).Some?
        ensures forall k :: 0 <= k < j && p.fixtures[k].table == p.attacks[i].table ==>
          KeyOf(p.fixtures[k].ownerRow, p.attacks[i].primaryKey) != KeyOf(p.fixtures[j].ownerRow,
            p.attacks[i].primaryKey)
      {
        assert NewKey(p, i, j);
      }
    }
  }

  lemma AllKeysAreGood(p: Profile)
    requires forall i, k :: 0 <= i < k < |p.attacks| ==> p.attacks[i].table != p.attacks[k].table
    ensures (forall j :: 0 <= j < |p.fixtures| ==> KeyProblem(p, j) == multiset{}) <==>
      && (forall j :: 0 <= j < |p.fixtures| ==> HasAttack(p.attacks, p.fixtures[j].table))
      && forall i :: 0 <= i < |p.attacks| ==> GoodKeys(p.fixtures, p.attacks[i])
  {
    hide KeyOf, KeyProblem;
    forall j | 0 <= j < |p.fixtures|
      ensures KeyProblem(p, j) == multiset{}
        <==> HasAttack(p.attacks, p.fixtures[j].table) && forall i :: 0 <= i < |p.attacks| ==> NewKey(p, i, j)
    {
      KeyIsGood(p, j);
    }
    hide HasAttack;
    forall i | 0 <= i < |p.attacks|
      ensures GoodKeys(p.fixtures, p.attacks[i]) <==> forall j :: 0 <= j < |p.fixtures| ==> NewKey(p, i, j)
    {
      KeysAreNew(p, i);
    }
    hide GoodKeys, NewKey;
  }

  lemma HeaderIsGood(p: Profile)
    ensures HeaderProblems(p) == multiset{} <==> GoodHeader(p)
  {
    hide IsIdentifier, GoodIdentity, IdentityProblems;
    IdentityIsGood("identity.owner", p.owner);
    IdentityIsGood("identity.adversary", p.adversary);
    var x1 := One(p.version != SUPPORTED_VERSION, "version", "must be 1");
    var x2 := One(!IsIdentifier(p.schema), "database.schema", LOWERCASE);
    var x3 := One(!p.requireDisposable, "database.require_disposable", "must be true");
    var x4 := IdentityProblems("identity.owner", p.owner);
    Empty(x1, x2);
    Empty(x1 + x2, x3);
    Empty(x1 + x2 + x3, x4);
    Empty(x1 + x2 + x3 + x4, IdentityProblems("identity.adversary", p.adversary));
  }

  lemma SupportedAttacks(p: Profile)
    ensures (forall i :: 0 <= i < |p.attacks| ==> GoodAttack(p.attacks[i]))
      <==> (forall i :: 0 <= i < |p.attacks| ==> GoodEntry(p.attacks[i])) && AllSupported(p)
  {
    hide GoodEntry;
    if forall i :: 0 <= i < |p.attacks| ==> GoodAttack(p.attacks[i]) {
      forall a, op | a in p.attacks && op in a.operations ensures op.Valid() {
        var i :| 0 <= i < |p.attacks| && p.attacks[i] == a;
        assert GoodAttack(p.attacks[i]);
      }
    }
  }

  /** A profile is accepted exactly when it is well formed. */
  lemma AcceptedIsWellFormed(p: Profile)
    ensures Diagnose(p) == multiset{} <==> WellFormed(p)
  {
    SupportedAttacks(p);
    hide GoodHeader, GoodFixture, GoodEntry, GoodAttack, AllSupported, KeyProblem, HasAttack, HasFixture, GoodKeys;
    hide HeaderProblems, FixturesProblems, AttacksProblems, TableProblems;
    HeaderIsGood(p);
    FixturesAreGood(p.fixtures, |p.fixtures|);
    AttacksAreGood(p, |p.attacks|);
    KeysAreGood(p, |p.fixtures|);
    if forall i, j :: 0 <= i < j < |p.attacks| ==> p.attacks[i].table != p.attacks[j].table {
      AllKeysAreGood(p);
    }
    var x1, x2 := HeaderProblems(p), FixturesProblems(p.fixtures, |p.fixtures|);
    var x3 := One(p.fixtures == [], "fixtures", "must contain at least one fixture");
    var x4 := AttacksProblems(p, |p.attacks|);
    var x5 := One(p.attacks == [], "attacks", "must contain at least one attack");
    Empty(x1, x2);
    Empty(x1 + x2, x3);
    Empty(x1 + x2 + x3, x4);
    Empty(x1 + x2 + x3 + x4, x5);
    Empty(x1 + x2 + x3 + x4 + x5, TableProblems(p, TablesOf(p.fixtures), |p.fixtures|));
  }
}
