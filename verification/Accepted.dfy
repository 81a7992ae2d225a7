/** What the validator's acceptance buys the run that follows. */
module Accepted {
  import opened Wrappers
  import opened Ordering
  import opened Text
  import opened Domain
  import opened SqlSyntax
  import opened Postgres
  import opened Runner
  import opened FixtureKeys
  import opened ProfileValidation
  import SqlSafe
  import Preflight
  import SessionConfig
  import Seeder
  import Control
  import Attacks

  /** Fixtures of one table differ in some key column. */
  lemma FixturesDiffer(p: Profile, a: Attack, i: nat, j: nat)
    requires Shaped(p) && a in p.attacks
    requires i < j < |p.fixtures| && p.fixtures[i].table == a.table == p.fixtures[j].table
    ensures forall c :: c in a.primaryKey ==> c in p.fixtures[i].ownerRow && c in p.fixtures[j].ownerRow
    ensures exists c :: c in a.primaryKey && p.fixtures[i].ownerRow[c] != p.fixtures[j].ownerRow[c]
  {
    hide GoodHeader, GoodEntry, GoodFixture, HasAttack, HasFixture, Part;
    var n :| 0 <= n < |p.attacks| && p.attacks[n] == a;
    assert GoodKeys(p.fixtures, p.attacks[n]);
    var one, other := p.fixtures[i].ownerRow, p.fixtures[j].ownerRow;
    assert KeyOf(one, a.primaryKey).Some? && KeyOf(other, a.primaryKey).Some?;
    if forall c :: c in a.primaryKey ==> one[c] == other[c] {
      SameKey(one, other, a.primaryKey);
    }
  }

  lemma SameKey(a: Row, b: Row, columns: seq<string>)
    requires forall c :: c in columns ==> c in a && c in b && a[c] == b[c]
    ensures KeyOf(a, columns) == KeyOf(b, columns)
  {
    hide Part;
    assert KeyParts(a, columns) == KeyParts(b, columns);
  }

  lemma {:induction false} LastExists(fixtures: seq<Fixture>, table: string, n: nat) returns (i: nat)
    requires n <= |fixtures| && exists k :: 0 <= k < n && fixtures[k].table == table
    requires forall k :: n <= k < |fixtures| ==> fixtures[k].table != table
    ensures Seeder.LastOfTable(fixtures, i) && fixtures[i].table == table
  {
    if fixtures[n - 1].table == table {
      i := n - 1;
    } else {
      i := LastExists(fixtures, table, n - 1);
    }
  }

  /** The row an attack is aimed at is its table's last fixture, and has every key column. */
  lemma AimedAtLastFixture(p: Profile, a: Attack) returns (i: nat)
    requires Shaped(p) && a in p.attacks
    ensures Seeder.LastOfTable(p.fixtures, i) && p.fixtures[i].table == a.table
    ensures RowFor(Seeder.OwnersAfter(p.fixtures, map[]), a.table) == p.fixtures[i].ownerRow
    ensures forall c :: c in a.primaryKey ==> c in p.fixtures[i].ownerRow
  {
    hide GoodHeader, GoodEntry, GoodFixture, HasAttack;
    var n :| 0 <= n < |p.attacks| && p.attacks[n] == a;
    assert HasFixture(p.fixtures, p.attacks[n].table) && GoodKeys(p.fixtures, p.attacks[n]);
    i := LastExists(p.fixtures, a.table, |p.fixtures|);
    Seeder.OwnerIsLast(p.fixtures, map[], i);
    assert KeyOf(p.fixtures[i].ownerRow, a.primaryKey).Some?;
  }

  /** Every statement the run builds for seeding, the controls, and select and delete attacks can be built. */
  lemma StatementsBuild(p: Profile)
    requires Shaped(p)
    ensures forall f :: f in p.fixtures ==> Seeder.FixtureStatement(p.schema, f).Ok?
    ensures forall a :: a in p.attacks ==>
      var row := RowFor(Seeder.OwnersAfter(p.fixtures, map[]), a.table);
      && SqlSafe.SelectStatement(p.schema, a.table, a.primaryKey, row).Ok?
      && SqlSafe.DeleteStatement(p.schema, a.table, a.primaryKey, row).Ok?
  {
    forall f | f in p.fixtures ensures Seeder.FixtureStatement(p.schema, f).Ok? {
      FixtureBuilds(p, f);
    }
    forall a | a in p.attacks
      ensures var row := RowFor(Seeder.OwnersAfter(p.fixtures, map[]), a.table);
        && SqlSafe.SelectStatement(p.schema, a.table, a.primaryKey, row).Ok?
        && SqlSafe.DeleteStatement(p.schema, a.table, a.primaryKey, row).Ok?
    {
      KeyStatementsBuild(p, a);
    }
  }

  lemma FixtureBuilds(p: Profile, f: Fixture)
    requires Shaped(p) && f in p.fixtures
    ensures Seeder.FixtureStatement(p.schema, f).Ok?
  {
    hide IsIdentifier, HasAttack, HasFixture, GoodKeys, GoodEntry;
    var i :| 0 <= i < |p.fixtures| && p.fixtures[i] == f;
    assert GoodFixture(f);
    SortedElementsMembers(f.ownerRow.Keys);
    var columns := SortedElements(f.ownerRow.Keys);
    var c :| c in f.ownerRow;
    assert c in columns;
    forall k | 0 <= k < |columns| ensures IsIdentifier(columns[k]) && columns[k] in f.ownerRow {
      assert columns[k] in columns;
    }
  }

  lemma KeyStatementsBuild(p: Profile, a: Attack)
    requires Shaped(p) && a in p.attacks
    ensures var row := RowFor(Seeder.OwnersAfter(p.fixtures, map[]), a.table);
      && SqlSafe.SelectStatement(p.schema, a.table, a.primaryKey, row).Ok?
      && SqlSafe.DeleteStatement(p.schema, a.table, a.primaryKey, row).Ok?
  {
    hide IsIdentifier, HasAttack, HasFixture, GoodKeys, GoodFixture;
    var n :| 0 <= n < |p.attacks| && p.attacks[n] == a;
    assert GoodEntry(a);
    var i := AimedAtLastFixture(p, a);
    assert SqlSafe.PredicateError(a.primaryKey, p.fixtures[i].ownerRow) == None;
  }

  predicate BadNames(e: Option<RunError>) {
    match e
    case Some(ConfigureFailed(BadName(_))) => true
    case Some(SeedFailed(BadFixture(_))) => true
    case _ => false
  }

  lemma {:induction false} SettingsHaveNames(db: Database, names: seq<string>, settings: map<string, string>, t: Tx)
    requires forall n :: n in names ==> n in settings
    ensures var failure := SessionConfig.SetFrom(db, names, settings, t).1;
      failure.Some? ==> failure.value.SettingFailed?
    decreases names
  {
    if names != [] {
      hide Send;
      SettingsHaveNames(db, names[1..], settings,
        Send(db, t, SET_CONFIG_TEXT, SessionConfig.Binding(names[0], settings[names[0]])));
    }
  }

  lemma ConfigureHasNames(db: Database, schema: string, identity: Identity, t: Tx)
    requires IsIdentifier(schema) && IsIdentifier(identity.role)
    ensures var failure := SessionConfig.Configured(db, schema, identity, t).1;
      failure.Some? ==> !failure.value.BadName?
  {
    hide Send, IsIdentifier, SessionConfig.SetFrom;
    SortedElementsMembers(identity.settings.Keys);
    var t1 := Send(db, t, SearchPathText(schema), []);
    var t2 := Send(db, t1, RoleText(identity.role), []);
    SettingsHaveNames(db, SortedElements(identity.settings.Keys), identity.settings, t2);
  }

  lemma {:induction false} SeedHasNames(db: Database, schema: string, fixtures: seq<Fixture>, s: Seeder.Seeded)
    requires forall f :: f in fixtures ==> Seeder.FixtureStatement(schema, f).Ok?
    requires s.failure.Some? ==> !s.failure.value.BadFixture?
    ensures var failure := Seeder.SeedFrom(db, schema, fixtures, s).failure;
      failure.Some? ==> !failure.value.BadFixture?
    decreases fixtures
  {
    if fixtures != [] {
      hide Send, Seeder.FixtureStatement;
      var f := fixtures[0];
      var statement := Seeder.FixtureStatement(schema, f).value;
      var next := Send(db, s.tx, statement.sql, statement.args);
      SeedHasNames(db, schema, fixtures[1..], Seeder.Seeded(next, s.owners[f.table := f.ownerRow], None));
    }
  }

  lemma StepHasNames(db: Database, p: Profile, owners: Seeder.OwnerRows, a: Attack, m: Matrix)
    requires GoodHeader(p) && m.failure == None
    ensures var failure := MatrixStep(db, p, owners, a, m).failure; failure.Some? ==> !failure.value.BadName?
  {
    hide SessionConfig.Configured, Control.Verified, Attacks.RunFrom, InsertsFrom, IsIdentifier;
    ConfigureHasNames(db, p.schema, p.owner, m.tx);
    var t := SessionConfig.Configured(db, p.schema, p.owner, m.tx).0;
    ConfigureHasNames(db, p.schema, p.adversary, Control.Verified(db, p.schema, a, RowFor(owners, a.table), t).0);
  }

  lemma {:induction false} MatrixHasNames(db: Database, p: Profile, owners: Seeder.OwnerRows, start: Tx, n: nat)
    requires n <= |p.attacks| && GoodHeader(p)
    ensures var failure := MatrixUpTo(db, p, owners, start, n).failure; failure.Some? ==> !failure.value.BadName?
  {
    hide MatrixStep, GoodHeader;
    if n > 0 {
      MatrixHasNames(db, p, owners, start, n - 1);
      var m := MatrixUpTo(db, p, owners, start, n - 1);
      if m.failure == None {
        StepHasNames(db, p, owners, p.attacks[n - 1], m);
      }
    }
  }

  /** A run of an accepted profile never ends for a name or row it cannot put into a statement. */
  lemma AcceptedRunsBuild(target: Target, p: Profile)
    requires Shaped(p)
    ensures !BadNames(Executed(target, p).error)
  {
    StatementsBuild(p);
    assert GoodHeader(p) && GoodIdentity(p.owner);
    hide *;
    ConfigureHasNames(target.db, p.schema, p.owner, Begin(target.base));
    var t := SessionConfig.Configured(target.db, p.schema, p.owner, Begin(target.base)).0;
    SeedHasNames(target.db, p.schema, p.fixtures, Seeder.Seeded(t, map[], None));
    var seeded := Seeder.SeedFrom(target.db, p.schema, p.fixtures, Seeder.Seeded(t, map[], None));
    MatrixHasNames(target.db, p, seeded.owners, seeded.tx, |p.attacks|);
    ErrorComesFrom(target, p);
  }

  /** Where a run's error can come from. */
  lemma ErrorComesFrom(target: Target, p: Profile)
    ensures BadNames(Executed(target, p).error) ==>
      var (t, failure) := SessionConfig.Configured(target.db, p.schema, p.owner, Begin(target.base));
      var seeded := Seeder.SeedFrom(target.db, p.schema, p.fixtures, Seeder.Seeded(t, map[], None));
      var m := MatrixUpTo(target.db, p, seeded.owners, seeded.tx, |p.attacks|);
      || (failure.Some? && failure.value.BadName?)
      || (seeded.failure.Some? && seeded.failure.value.BadFixture?)
      || (m.failure.Some? && m.failure.value.BadName?)
  {
    hide SessionConfig.Configured, Seeder.SeedFrom, MatrixUpTo, EndingOf, Preflight.AllFindings, Preflight.Severest;
    hide Verdict;
  }
}
