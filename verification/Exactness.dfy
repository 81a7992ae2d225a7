/** When a run passes: on a server that refuses nothing but what the policies forbid, exactly when the policies
    isolate. */
module Exactness {
  import opened Wrappers
  import opened Ordering
  import opened Text
  import opened Domain
  import opened SqlSyntax
  import opened Postgres
  import opened Runner
  import opened Isolation
  import opened FixtureKeys
  import opened ProfileValidation
  import Accepted
  import SqlSafe
  import Preflight
  import SessionConfig
  import Seeder
  import Control
  import Attacks
  import Evaluate

  // ---------- what is assumed, and what is claimed ----------

  /** Every statement arrives, and only a row security policy ever makes the server refuse one. */
  ghost predicate Obliging(db: Database) {
    && (forall n: nat :: !db.lost(n))
    && forall n: nat, s, q, args :: db.refuses(n, s, q, args) == None
  }

  function FixtureRel(p: Profile, f: Fixture): Relation {
    Relation(p.schema, f.table)
  }

  /** The owner's context while the fixtures are inserted. */
  function SeedContext(target: Target, p: Profile): Context {
    Context(p.owner.role, target.base.settings + p.owner.settings)
  }

  /** The run gets as far as its attacks: contacts succeed, the gate opens, the tables exist, and the owner may insert
      its fixtures. */
  ghost predicate Cooperative(target: Target, p: Profile) {
    && target.opens && target.login.Some? && target.begins
    && Preflight.Clear(target.catalog, p, GateConfig(target.login.value)) && Truthful(target, p)
    && Obliging(target.db)
    && (forall a :: a in p.attacks ==> Rel(p, a) in target.base.tables)
    && forall f :: f in p.fixtures ==> target.db.insertCheck(SeedContext(target, p), FixtureRel(p, f), f.ownerRow)
  }

  /** What validation leaves open: an update needs one mutated column, an insert some columns, all of them
      identifiers. */
  predicate Attackable(a: Attack) {
    && (Update in a.operations ==> |a.mutation| == 1 && forall c :: c in a.mutation ==> IsIdentifier(c))
    && (Insert in a.operations ==> a.insert != map[] && forall c :: c in a.insert ==> IsIdentifier(c))
  }

  predicate AllAttackable(p: Profile) {
    forall a :: a in p.attacks ==> Attackable(a)
  }

  function InsertCount(ops: seq<Operation>): nat
    decreases ops
  {
    if ops == [] then 0 else (if ops[0] == Insert then 1 else 0) + InsertCount(ops[1..])
  }

  /** At most one insert is attempted, and in the last attack. */
  predicate InsertLast(p: Profile) {
    forall i :: 0 <= i < |p.attacks| ==> InsertCount(p.attacks[i].operations) <= if i == |p.attacks| - 1 then 1 else 0
  }

  /** The fixture rows of a table. */
  function RowsOf(fixtures: seq<Fixture>, table: string): seq<Row>
    decreases fixtures
  {
    if fixtures == [] then []
    else if fixtures[0].table == table then [fixtures[0].ownerRow] + RowsOf(fixtures[1..], table)
    else RowsOf(fixtures[1..], table)
  }

  /** The rows an attack finds: those stored before the run, and the table's fixtures. */
  function RowsFound(target: Target, p: Profile, a: Attack): seq<Row> {
    target.base.Stored(Rel(p, a)) + RowsOf(p.fixtures, a.table)
  }

  function Aim(p: Profile, a: Attack): Row {
    RowFor(Seeder.OwnersAfter(p.fixtures, map[]), a.table)
  }

  /** Some of the rows with the attack's key can be reached by the operation. */
  ghost predicate Reachable(target: Target, p: Profile, a: Attack, op: Operation, c: Context) {
    exists row :: row in RowsFound(target, p, a) && SqlSafe.KeyMatches(a.primaryKey, Aim(p, a), row)
      && Can(target.db, op, c, Rel(p, a), row)
  }

  /** The policies on attack i: the owner sees a row with the key, the adversary reaches none by any listed operation,
      and may not insert its row. */
  ghost predicate SecureAt(target: Target, p: Profile, i: nat)
    requires i < |p.attacks|
  {
    var a := p.attacks[i];
    && Reachable(target, p, a, Select, OwnerContext(target, p, i))
    && forall op :: op in a.operations ==>
         && !Reachable(target, p, a, op, AdversaryContext(target, p))
         && (op == Insert ==> !target.db.insertCheck(AdversaryContext(target, p), Rel(p, a), a.insert))
  }

  ghost predicate Secure(target: Target, p: Profile) {
    forall i :: 0 <= i < |p.attacks| ==> SecureAt(target, p, i)
  }

  // ---------- statements that are accepted ----------

  /** What the transaction becomes when an active server accepts. */
  lemma Accepts(db: Database, t: Tx, sql: string, args: seq<Value>)
    requires Obliging(db) && t.status.Active?
    ensures var e := RunActive(db, |t.log|, t.session, t.points, Understood(sql), args);
      var next := Send(db, t, sql, args);
      if e.Accepted? then
        !LastReply(next).Failed() && LastReply(next) == e.reply && next == t.(log := next.log,
          session := e.session, points := e.points)
      else LastReply(next) == ServerError(e.code) && next == t.(log := next.log, status := Aborted)
  {
    hide Parse, RunActive;
  }

  lemma PathAccepts(db: Database, t: Tx, schema: string)
    requires Obliging(db) && t.status.Active? && IsIdentifier(schema)
    ensures !LastReply(Send(db, t, SearchPathText(schema), [])).Failed()
  {
    IdentifierHasNoQuote(schema);
    SearchPathRead(schema);
    hide Parse, SearchPathText, Send;
    Accepts(db, t, SearchPathText(schema), []);
  }

  lemma RoleAccepts(db: Database, t: Tx, role: string)
    requires Obliging(db) && t.status.Active? && IsIdentifier(role)
    ensures !LastReply(Send(db, t, RoleText(role), [])).Failed()
  {
    IdentifierHasNoQuote(role);
    RoleRead(role);
    hide Parse, RoleText, Send;
    Accepts(db, t, RoleText(role), []);
  }

  lemma SettingAccepts(db: Database, t: Tx, name: string, value: string)
    requires Obliging(db) && t.status.Active?
    ensures !LastReply(Send(db, t, SET_CONFIG_TEXT, SessionConfig.Binding(name, value))).Failed()
  {
    ConfigRead();
    hide Parse, Send;
    Accepts(db, t, SET_CONFIG_TEXT, SessionConfig.Binding(name, value));
  }

  lemma {:induction false} SettingsAccept(db: Database, names: seq<string>, settings: map<string, string>, t: Tx)
    requires Obliging(db) && t.status.Active? && forall n :: n in names ==> n in settings
    ensures SessionConfig.SetFrom(db, names, settings, t).1 == None
    decreases names
  {
    hide Obliging, Send;
    if names != [] {
      SettingAccepts(db, t, names[0], settings[names[0]]);
      SessionConfig.SettingAccepted(db, t, names[0], settings[names[0]]);
      SettingsAccept(db, names[1..], settings,
        Send(db, t, SET_CONFIG_TEXT, SessionConfig.Binding(names[0], settings[names[0]])));
    }
  }

  lemma ConfigureAccepts(db: Database, schema: string, identity: Identity, t: Tx)
    requires Obliging(db) && t.status.Active? && IsIdentifier(schema) && IsIdentifier(identity.role)
    ensures SessionConfig.Configured(db, schema, identity, t).1 == None
  {
    hide Obliging, Send, IsIdentifier, SessionConfig.SetFrom;
    SortedElementsMembers(identity.settings.Keys);
    PathAccepts(db, t, schema);
    SessionConfig.PathAccepted(db, t, schema);
    var t1 := Send(db, t, SearchPathText(schema), []);
    RoleAccepts(db, t1, identity.role);
    SessionConfig.RoleAccepted(db, t1, identity.role);
    var t2 := Send(db, t1, RoleText(identity.role), []);
    SettingsAccept(db, SortedElements(identity.settings.Keys), identity.settings, t2);
  }

  /** An INSERT of a map is answered by the policy alone. */
  lemma InsertAnswers(db: Database, t: Tx, schema: string, table: string, values: Row)
    requires Obliging(db) && t.status.Active? && Relation(schema, table) in t.session.tables
    requires SqlSafe.InsertStatement(schema, table, values, SortedElements(values.Keys)).Ok?
    ensures var s := SqlSafe.InsertStatement(schema, table, values, SortedElements(values.Keys)).value;
      var next := Send(db, t, s.sql, s.args);
      var rel := Relation(schema, table);
      if db.insertCheck(t.session.Ctx(), rel, values) then
        && LastReply(next) == Affected(1)
        && var tables := t.session.tables[rel := t.session.Stored(rel) + [values]];
           next == t.(log := next.log, session := t.session.(tables := db.AfterChange(rel, tables)))
      else LastReply(next) == ServerError(DENIED) && next == t.(log := next.log, status := Aborted)
  {
    hide Parse, SqlSafe.InsertStatement, SqlSafe.InsertedRow, MarkNumbers, SortedElements, RunActive, Send;
    var s := SqlSafe.InsertStatement(schema, table, values, SortedElements(values.Keys)).value;
    var columns := SortedElements(values.Keys);
    SqlSafe.InsertMeansRow(schema, table, values);
    InsertRuns(db, |t.log|, t.session, t.points, Relation(schema, table), columns, MarkNumbers(1, |columns|), s.args);
    hide Obliging;
    Accepts(db, t, s.sql, s.args);
  }

  lemma InsertRuns(db: Database, n: nat, s: Session, points: seq<Point>, rel: Relation, columns: seq<string>,
          marks: seq<nat>, args: seq<Value>)
    requires Obliging(db) && rel in s.tables
    ensures var row := SqlSafe.InsertedRow(columns, marks, args);
      RunActive(db, n, s, points, InsertRow(rel.schema, rel.table, columns, marks), args)
      == if db.insertCheck(s.Ctx(), rel, row) then Change(db, s, points, rel, s.Stored(rel) + [row],
        1) else Rejected(DENIED)
  {
    hide SqlSafe.InsertedRow;
  }

  lemma KeysRun(db: Database, n: nat, s: Session, points: seq<Point>, rel: Relation, where: seq<Condition>,
          args: seq<Value>)
    requires Obliging(db) && rel in s.tables
    ensures RunActive(db, n, s, points, SelectRows(rel.schema, rel.table, where), args).Accepted?
    ensures RunActive(db, n, s, points, DeleteRows(rel.schema, rel.table, where), args).Accepted?
  {
    hide Filter, SelectReached, DeleteReached;
  }

  lemma UpdateRuns(db: Database, n: nat, s: Session, points: seq<Point>, rel: Relation, column: string,
          where: seq<Condition>, args: seq<Value>)
    requires Obliging(db) && rel in s.tables && |Filter(s.Stored(rel), UpdateReached(db, s, rel, where, args))| == 0
    ensures RunActive(db, n, s, points, UpdateRows(rel.schema, rel.table, column, 1, where), args).Accepted?
  {
    hide Filter, UpdateReached, MapRows, SqlSafe.Bound;
  }

  lemma KeyAccepts(db: Database, t: Tx, schema: string, table: string, keys: seq<string>, values: Row)
    requires Obliging(db) && t.status.Active? && Relation(schema, table) in t.session.tables
    requires SqlSafe.SelectStatement(schema, table, keys, values).Ok?
      && SqlSafe.DeleteStatement(schema, table, keys, values).Ok?
    ensures var s := SqlSafe.SelectStatement(schema, table, keys, values).value;
      !LastReply(Send(db, t, s.sql, s.args)).Failed()
    ensures var s := SqlSafe.DeleteStatement(schema, table, keys, values).value;
      !LastReply(Send(db, t, s.sql, s.args)).Failed()
  {
    var s, d := SqlSafe.SelectStatement(schema, table, keys, values).value, SqlSafe.DeleteStatement(schema, table,
      keys, values).value;
    hide Parse, SqlSafe.SelectStatement, SqlSafe.DeleteStatement, RunActive, Conditions, Send, Obliging;
    KeyRead(schema, table, keys, values);
    KeysRun(db, |t.log|, t.session, t.points, Relation(schema, table), Conditions(keys, 1), s.args);
    KeysRun(db, |t.log|, t.session, t.points, Relation(schema, table), Conditions(keys, 1), d.args);
    Accepts(db, t, s.sql, s.args);
    Accepts(db, t, d.sql, d.args);
  }

  lemma UpdateAccepts(db: Database, t: Tx, schema: string, table: string, keys: seq<string>, values: Row, mutation: Row)
    requires Obliging(db) && t.status.Active? && Relation(schema, table) in t.session.tables
    requires SqlSafe.UpdateStatement(schema, table, keys, values, mutation).Ok?
    requires !AnyReached(db, Update, t.session, Relation(schema, table), keys, values)
    ensures var s := SqlSafe.UpdateStatement(schema, table, keys, values, mutation).value;
      !LastReply(Send(db, t, s.sql, s.args)).Failed()
  {
    var s := SqlSafe.UpdateStatement(schema, table, keys, values, mutation).value;
    var rel := Relation(schema, table);
    hide Parse, SqlSafe.UpdateStatement, SqlSafe.Holds, SqlSafe.KeyMatches, Filter, Means, UpdateReached, AnyReached;
    hide Conditions, RunActive, Send, Obliging;
    SqlSafe.UpdateMeansKey(schema, table, keys, values, mutation, map[]);
    UpdateMeans(db, t.session, schema, table, keys, values, mutation);
    PicksReached(UpdateReached(db, t.session, rel, Conditions(keys, 2), s.args), db, Update, t.session, rel, keys,
      values);
    UpdateRuns(db, |t.log|, t.session, t.points, rel, SqlSafe.MutatedColumn(mutation), Conditions(keys, 2), s.args);
    Accepts(db, t, s.sql, s.args);
  }

  // ---------- seeding ----------

  /** A fixture the owner may insert. */
  ghost predicate Plantable(db: Database, schema: string, s: Session, f: Fixture) {
    && Seeder.FixtureStatement(schema, f).Ok?
    && Relation(schema, f.table) in s.tables && !db.effectful(Relation(schema, f.table))
    && db.insertCheck(s.Ctx(), Relation(schema, f.table), f.ownerRow)
  }

  lemma Planted(db: Database, schema: string, t: Tx, f: Fixture)
    requires Obliging(db) && t.status.Active? && Plantable(db, schema, t.session, f)
    ensures var s := Seeder.FixtureStatement(schema, f).value;
      var next := Send(db, t, s.sql, s.args);
      var rel := Relation(schema, f.table);
      && !LastReply(next).Failed() && next.status.Active? && next.session.Ctx() == t.session.Ctx()
      && next.session.tables == t.session.tables[rel := t.session.Stored(rel) + [f.ownerRow]]
  {
    InsertAnswers(db, t, schema, f.table, f.ownerRow);
    hide SqlSafe.InsertStatement, Send;
  }

  lemma {:induction false} SeedStores(db: Database, schema: string, fixtures: seq<Fixture>, s: Seeder.Seeded,
          table: string)
    requires Obliging(db) && s.failure == None && s.tx.status.Active?
    requires forall f :: f in fixtures ==> Plantable(db, schema, s.tx.session, f)
    requires Relation(schema, table) in s.tx.session.tables
    ensures var r := Seeder.SeedFrom(db, schema, fixtures, s);
      && r.failure == None && Relation(schema, table) in r.tx.session.tables
      && r.tx.session.Stored(Relation(schema, table))
        == s.tx.session.Stored(Relation(schema, table)) + RowsOf(fixtures, table)
    decreases fixtures
  {
    hide Obliging, Send, Seeder.FixtureStatement;
    if fixtures != [] {
      var f := fixtures[0];
      assert Plantable(db, schema, s.tx.session, f);
      var statement := Seeder.FixtureStatement(schema, f).value;
      var t := Send(db, s.tx, statement.sql, statement.args);
      var next := Seeder.Seeded(t, s.owners[f.table := f.ownerRow], None);
      Planted(db, schema, s.tx, f);
      forall g | g in fixtures[1..] ensures Plantable(db, schema, t.session, g) {
        assert Plantable(db, schema, s.tx.session, g);
      }
      SeedStores(db, schema, fixtures[1..], next, table);
    }
  }

  // ---------- one attack ----------

  /** The adversary cannot reach the row by the operation, and the statement can be built. */
  ghost predicate Harmless(db: Database, schema: string, a: Attack, row: Row, op: Operation, s: Session) {
    && KeyOperation(op) && Attacks.StatementFor(schema, a, row, op).Ok?
    && !AnyReached(db, op, s, Relation(schema, a.table), a.primaryKey, row)
  }

  lemma AttemptDenied(db: Database, schema: string, a: Attack, row: Row, op: Operation, t: Tx)
    requires Obliging(db) && t.status.Active?
    requires Relation(schema, a.table) in t.session.tables && !db.effectful(Relation(schema, a.table))
    requires Harmless(db, schema, a, row, op, t.session)
    ensures var (t', e) := Attacks.Attempt(db, schema, a, row, op, t); e.denied && t' == t.(log := t'.log)
  {
    var s := Attacks.StatementFor(schema, a, row, op).value;
    match op {
      case Select =>
        BothBuild(schema, a, row);
        KeyAccepts(db, t, schema, a.table, a.primaryKey, row);
        SelectStatementRuns(db, t, schema, a.table, a.primaryKey, row);
      case Delete =>
        BothBuild(schema, a, row);
        KeyAccepts(db, t, schema, a.table, a.primaryKey, row);
        DeleteStatementRuns(db, t, schema, a.table, a.primaryKey, row);
      case Update =>
        UpdateAccepts(db, t, schema, a.table, a.primaryKey, row, a.mutation);
        UpdateStatementRuns(db, t, schema, a.table, a.primaryKey, row, a.mutation);
    }
    hide Send, AnyReached, SqlSafe.SelectStatement, SqlSafe.DeleteStatement, SqlSafe.UpdateStatement;
  }

  lemma BothBuild(schema: string, a: Attack, row: Row)
    ensures SqlSafe.SelectStatement(schema, a.table, a.primaryKey, row).Ok?
      <==> SqlSafe.DeleteStatement(schema, a.table, a.primaryKey, row).Ok?
  {
  }

  lemma {:induction false} RunDenied(db: Database, schema: string, a: Attack, row: Row, ops: seq<Operation>, t: Tx)
    requires Obliging(db) && t.status.Active?
    requires Relation(schema, a.table) in t.session.tables && !db.effectful(Relation(schema, a.table))
    requires forall op :: op in ops && op != Insert ==> Harmless(db, schema, a, row, op, t.session)
    ensures var (t', es) := Attacks.RunFrom(db, schema, a, row, ops, t); DeniedAll(es) && t' == t.(log := t'.log)
    decreases ops
  {
    hide Obliging, Harmless, Attacks.Attempt;
    if ops != [] {
      assert ops[0] in ops && forall op :: op in ops[1..] ==> op in ops;
      if ops[0] == Insert {
        RunDenied(db, schema, a, row, ops[1..], t);
      } else {
        AttemptDenied(db, schema, a, row, ops[0], t);
        var (t1, e) := Attacks.Attempt(db, schema, a, row, ops[0], t);
        RunDenied(db, schema, a, row, ops[1..], t1);
        DeniedCons(e, Attacks.RunFrom(db, schema, a, row, ops[1..], t1).1);
      }
    }
  }

  lemma {:induction false} NoInserts(db: Database, schema: string, a: Attack, ops: seq<Operation>, t: Tx)
    requires InsertCount(ops) == 0
    ensures InsertsFrom(db, schema, a, ops, t) == (t, []) && Insert !in ops
    decreases ops
  {
    if ops != [] {
      NoInserts(db, schema, a, ops[1..], t);
    }
  }

  lemma {:induction false} CountsInserts(ops: seq<Operation>)
    ensures InsertCount(ops) > 0 <==> Insert in ops
    decreases ops
  {
    if ops != [] {
      CountsInserts(ops[1..]);
      assert ops == [ops[0]] + ops[1..];
    }
  }

  ghost predicate InsertBuilds(schema: string, a: Attack) {
    SqlSafe.InsertStatement(schema, a.table, a.insert, SortedElements(a.insert.Keys)).Ok?
  }

  lemma InsertRefused(db: Database, schema: string, a: Attack, t: Tx)
    requires Obliging(db) && t.status.Active? && Relation(schema, a.table) in t.session.tables
      && InsertBuilds(schema, a)
    ensures var (t', e) := Attacks.InsertAttempt(db, schema, a, t);
      e.denied <==> !db.insertCheck(t.session.Ctx(), Relation(schema, a.table), a.insert)
    ensures var (t', e) := Attacks.InsertAttempt(db, schema, a, t);
      e.denied ==> t' == t.(log := t'.log, status := Aborted)
  {
    InsertAnswers(db, t, schema, a.table, a.insert);
    hide SqlSafe.InsertStatement, Send;
  }

  /** One insert is denied when the policy forbids it. */
  lemma {:induction false} OneInsertDenied(db: Database, schema: string, a: Attack, ops: seq<Operation>, t: Tx)
    requires Obliging(db) && t.status.Active? && Relation(schema, a.table) in t.session.tables
    requires InsertCount(ops) <= 1
    requires Insert in ops ==>
      InsertBuilds(schema, a) && !db.insertCheck(t.session.Ctx(), Relation(schema, a.table), a.insert)
    ensures var (t', es) := InsertsFrom(db, schema, a, ops, t);
      DeniedAll(es) && t' == t.(log := t'.log, status := t'.status) && (InsertCount(ops) == 0 ==> t'.status.Active?)
    decreases ops
  {
    hide Obliging, InsertBuilds, Attacks.InsertAttempt;
    if ops != [] {
      if ops[0] != Insert {
        OneInsertDenied(db, schema, a, ops[1..], t);
      } else {
        InsertRefused(db, schema, a, t);
        NoInserts(db, schema, a, ops[1..], Attacks.InsertAttempt(db, schema, a, t).0);
      }
    }
  }

  /** What an attack needs, at its start, to be denied throughout. */
  ghost predicate Deniable(db: Database, p: Profile, a: Attack, row: Row, s: Session) {
    var s' := AdversarySession(p, s);
    && SqlSafe.SelectStatement(p.schema, a.table, a.primaryKey, row).Ok?
    && AnyReached(db, Select, OwnerSession(p, s), Rel(p, a), a.primaryKey, row)
    && (forall op :: op in a.operations && op != Insert ==> Harmless(db, p.schema, a, row, op, s'))
    && (Insert in a.operations ==> InsertBuilds(p.schema, a) && !db.insertCheck(s'.Ctx(), Rel(p, a), a.insert))
    && InsertCount(a.operations) <= 1
  }

  lemma ControlSucceeds(db: Database, p: Profile, a: Attack, row: Row, t: Tx)
    requires Obliging(db) && t.status.Active? && Rel(p, a) in t.session.tables
    requires SqlSafe.SelectStatement(p.schema, a.table, a.primaryKey, row).Ok?
    requires AnyReached(db, Select, t.session, Rel(p, a), a.primaryKey, row)
    ensures Control.Verified(db, p.schema, a, row, t).1
  {
    BothBuild(p.schema, a, row);
    KeyAccepts(db, t, p.schema, a.table, a.primaryKey, row);
    SelectStatementRuns(db, t, p.schema, a.table, a.primaryKey, row);
    hide Send, AnyReached, SqlSafe.SelectStatement, SqlSafe.DeleteStatement;
  }

  lemma AttackedDenied(db: Database, p: Profile, a: Attack, row: Row, m: Matrix, s: Session)
    requires Obliging(db) && GoodHeader(p) && Good(m) && m.tx.status.Active? && m.tx.session == OwnerSession(p, s)
    requires Rel(p, a) in s.tables && !db.effectful(Rel(p, a)) && Deniable(db, p, a, row, s)
    ensures var m' := Attacked(db, p, a, row, m);
      Good(m') && m'.tx.session == AdversarySession(p, s) && (InsertCount(a.operations) == 0 ==> m'.tx.status.Active?)
  {
    hide Obliging, Harmless, InsertBuilds, AnyReached, SqlSafe.SelectStatement;
    ConfigureAccepts(db, p.schema, p.adversary, m.tx);
    SessionConfig.ConfiguredOverlays(db, p.schema, p.adversary, m.tx);
    hide SessionConfig.Configured, AllAccepted, IsIdentifier;
    var t := SessionConfig.Configured(db, p.schema, p.adversary, m.tx).0;
    RunDenied(db, p.schema, a, row, a.operations, t);
    var (t1, e1) := Attacks.RunFrom(db, p.schema, a, row, a.operations, t);
    OneInsertDenied(db, p.schema, a, a.operations, t1);
    DeniedConcat(m.evidence + e1, InsertsFrom(db, p.schema, a, a.operations, t1).1);
    DeniedConcat(m.evidence, e1);
    hide Attacks.RunFrom, InsertsFrom;
  }

  lemma StepDenied(db: Database, p: Profile, owners: Seeder.OwnerRows, a: Attack, m: Matrix)
    requires Obliging(db) && GoodHeader(p) && Good(m) && m.tx.status.Active?
    requires Rel(p, a) in m.tx.session.tables && !db.effectful(Rel(p, a))
    requires Deniable(db, p, a, RowFor(owners, a.table), m.tx.session)
    ensures var m' := MatrixStep(db, p, owners, a, m);
      && Good(m') && m'.tx.session == AdversarySession(p, m.tx.session)
      && (InsertCount(a.operations) == 0 ==> m'.tx.status.Active?)
  {
    var row := RowFor(owners, a.table);
    StepStarts(db, p, a, row, m.tx);
    hide Obliging, GoodHeader, Deniable, DeniedAll, SessionConfig.Configured, Control.Verified, Attacked;
    var t := SessionConfig.Configured(db, p.schema, p.owner, m.tx).0;
    AttackedDenied(db, p, a, row, m.(tx := Control.Verified(db, p.schema, a, row, t).0), m.tx.session);
  }

  lemma StepStarts(db: Database, p: Profile, a: Attack, row: Row, t: Tx)
    requires Obliging(db) && GoodHeader(p) && t.status.Active? && Rel(p, a) in t.session.tables
    requires Deniable(db, p, a, row, t.session)
    ensures var (t1, failure) := SessionConfig.Configured(db, p.schema, p.owner, t);
      var (t2, ok) := Control.Verified(db, p.schema, a, row, t1);
      failure == None && ok && t2.status.Active? && t2.session == OwnerSession(p, t.session)
  {
    hide Obliging, Harmless, InsertBuilds, AnyReached, SqlSafe.SelectStatement, IsIdentifier;
    ConfigureAccepts(db, p.schema, p.owner, t);
    SessionConfig.ConfiguredOverlays(db, p.schema, p.owner, t);
    hide SessionConfig.Configured, AllAccepted;
    var t1 := SessionConfig.Configured(db, p.schema, p.owner, t).0;
    ControlSucceeds(db, p, a, row, t1);
    Control.VerifiedObserves(db, p.schema, a, row, t1);
    hide Control.Verified;
  }

  // ---------- policies and sessions ----------

  lemma ReachableIs(target: Target, p: Profile, a: Attack, op: Operation, s: Session)
    requires s.Stored(Rel(p, a)) == RowsFound(target, p, a)
    ensures Reachable(target, p, a, op, s.Ctx()) <==> AnyReached(target.db, op, s, Rel(p, a), a.primaryKey, Aim(p, a))
  {
    hide SqlSafe.KeyMatches, Can, RowsFound, Aim;
    if Reachable(target, p, a, op, s.Ctx()) {
      var row :| row in RowsFound(target, p, a) && SqlSafe.KeyMatches(a.primaryKey, Aim(p, a),
        row) && Can(target.db, op, s.Ctx(), Rel(p, a), row);
      assert Reached(target.db, op, s, Rel(p, a), a.primaryKey, Aim(p, a), row);
    }
    if AnyReached(target.db, op, s, Rel(p, a), a.primaryKey, Aim(p, a)) {
      var row :| Reached(target.db, op, s, Rel(p, a), a.primaryKey, Aim(p, a), row);
    }
  }

  /** The session at the start of attack i sees the seeded rows, under the settings of its place. */
  ghost predicate Placed(target: Target, p: Profile, i: nat, s: Session)
    requires i < |p.attacks|
  {
    && Rel(p, p.attacks[i]) in s.tables && s.Stored(Rel(p, p.attacks[i])) == RowsFound(target, p, p.attacks[i])
    && s.settings == StartSettings(p, target.base.settings, i)
  }

  lemma PlacedContexts(target: Target, p: Profile, i: nat, s: Session)
    requires i < |p.attacks| && Placed(target, p, i, s)
    ensures OwnerSession(p, s).Ctx() == OwnerContext(target, p, i)
      && AdversarySession(p, s).Ctx() == AdversaryContext(target, p)
    ensures OwnerSession(p, s).Stored(Rel(p, p.attacks[i])) == RowsFound(target, p, p.attacks[i])
    ensures AdversarySession(p, s).Stored(Rel(p, p.attacks[i])) == RowsFound(target, p, p.attacks[i])
  {
    hide RowsFound;
    SettingsAreStable(p, target.base.settings, i);
  }

  /** Policies that isolate, seen from the session in which an attack starts. */
  ghost predicate SecureFor(target: Target, p: Profile, a: Attack, s: Session) {
    && AnyReached(target.db, Select, OwnerSession(p, s), Rel(p, a), a.primaryKey, Aim(p, a))
    && forall op :: op in a.operations ==>
         && !AnyReached(target.db, op, AdversarySession(p, s), Rel(p, a), a.primaryKey, Aim(p, a))
         && (op == Insert ==> !target.db.insertCheck(AdversarySession(p, s).Ctx(), Rel(p, a), a.insert))
  }

  lemma SecureIs(target: Target, p: Profile, i: nat, s: Session)
    requires i < |p.attacks| && Placed(target, p, i, s)
    ensures SecureAt(target, p, i) <==> SecureFor(target, p, p.attacks[i], s)
  {
    var a := p.attacks[i];
    PlacedContexts(target, p, i, s);
    hide Placed, RowsFound, Reachable, AnyReached, OwnerContext, AdversaryContext, OwnerSession, AdversarySession;
    ReachableIs(target, p, a, Select, OwnerSession(p, s));
    forall op ensures Reachable(target, p, a, op, AdversaryContext(target, p))
      <==> AnyReached(target.db, op, AdversarySession(p, s), Rel(p, a), a.primaryKey, Aim(p, a))
    {
      ReachableIs(target, p, a, op, AdversarySession(p, s));
    }
  }

  /** Which operations' statements can be built. */
  ghost predicate Builds(p: Profile, a: Attack) {
    && SqlSafe.SelectStatement(p.schema, a.table, a.primaryKey, Aim(p, a)).Ok?
    && (Update in a.operations ==> SqlSafe.UpdateStatement(p.schema, a.table, a.primaryKey, Aim(p, a), a.mutation).Ok?)
    && (Insert in a.operations ==> InsertBuilds(p.schema, a))
  }

  lemma UpdateBuilds(p: Profile, a: Attack)
    requires SqlSafe.SelectStatement(p.schema, a.table, a.primaryKey, Aim(p, a)).Ok?
    ensures SqlSafe.UpdateStatement(p.schema, a.table, a.primaryKey, Aim(p, a), a.mutation).Ok?
      <==> |a.mutation| == 1 && forall c :: c in a.mutation ==> IsIdentifier(c)
  {
    hide IsIdentifier, SqlSafe.PredicateError;
    if |a.mutation| == 1 {
      SqlSafe.SingleKey(a.mutation);
      var c :| a.mutation.Keys == {c};
      assert SqlSafe.MutatedColumn(a.mutation) in a.mutation.Keys;
      assert c in a.mutation && forall d :: d in a.mutation ==> d in a.mutation.Keys;
    }
  }

  lemma InsertBuildsIs(schema: string, a: Attack)
    requires IsIdentifier(schema) && IsIdentifier(a.table)
    ensures InsertBuilds(schema, a) <==> a.insert != map[] && forall c :: c in a.insert ==> IsIdentifier(c)
  {
    hide IsIdentifier, SortedElements;
    var columns := SortedElements(a.insert.Keys);
    SortedElementsMembers(a.insert.Keys);
    assert InsertBuilds(schema, a) <==> columns != [] && SqlSafe.ColumnError(columns, a.insert, 0) == None;
    hide InsertBuilds;
    ColumnsFit(columns, a.insert);
    if c :| c in a.insert {
      assert c in columns;
    } else {
      assert a.insert.Keys == {};
    }
  }

  lemma ColumnsFit(columns: seq<string>, values: Row)
    ensures SqlSafe.ColumnError(columns, values, 0) == None
      <==> forall c :: c in columns ==> IsIdentifier(c) && c in values
  {
    hide IsIdentifier;
    assert forall k :: 0 <= k < |columns| ==> columns[k] in columns;
  }

  lemma BuildsIs(p: Profile, a: Attack)
    requires Shaped(p) && a in p.attacks
    ensures Builds(p, a) <==> Attackable(a)
  {
    Accepted.KeyStatementsBuild(p, a);
    var n :| 0 <= n < |p.attacks| && p.attacks[n] == a;
    assert GoodEntry(p.attacks[n]);
    UpdateBuilds(p, a);
    InsertBuildsIs(p.schema, a);
    hide IsIdentifier, SqlSafe.SelectStatement, SqlSafe.DeleteStatement, SqlSafe.UpdateStatement, InsertBuilds;
    hide GoodKeys, GoodFixture, HasAttack, HasFixture;
  }

  lemma SecureIsDeniable(target: Target, p: Profile, a: Attack, s: Session)
    requires Builds(p, a) && SecureFor(target, p, a, s) && InsertCount(a.operations) <= 1
    requires forall op :: op in a.operations ==> op.Valid()
    ensures Deniable(target.db, p, a, Aim(p, a), s)
  {
    BothBuild(p.schema, a, Aim(p, a));
    hide Aim, AnyReached, InsertBuilds, SqlSafe.SelectStatement, SqlSafe.DeleteStatement, SqlSafe.UpdateStatement;
    hide OwnerSession, AdversarySession;
  }

  // ---------- a secure target passes ----------

  lemma FixturesArePlantable(target: Target, p: Profile, t: Tx)
    requires Shaped(p) && Cooperative(target, p)
    requires t.session.tables == target.base.tables && t.session.Ctx() == SeedContext(target, p)
    ensures forall f :: f in p.fixtures ==> Plantable(target.db, p.schema, t.session, f)
  {
    GateExcludesEffects(target, p);
    hide IsIdentifier, GoodHeader, GoodEntry, GoodFixture, GoodKeys, HasFixture, Preflight.Clear;
    hide Truthful, Obliging;
    forall f | f in p.fixtures ensures Plantable(target.db, p.schema, t.session, f) {
      Accepted.FixtureBuilds(p, f);
      var n :| 0 <= n < |p.fixtures| && p.fixtures[n] == f;
      assert HasAttack(p.attacks, p.fixtures[n].table);
      var k :| 0 <= k < |p.attacks| && p.attacks[k].table == f.table;
      assert p.attacks[k] in p.attacks && Rel(p, p.attacks[k]) == Relation(p.schema, f.table);
    }
  }

  lemma SeedingPlaces(target: Target, p: Profile, a: Attack)
    requires Shaped(p) && Cooperative(target, p) && a in p.attacks
    ensures SessionConfig.Configured(target.db, p.schema, p.owner, Begin(target.base)).1 == None
      && Seeding(target, p).failure == None
    ensures var s := Seeding(target, p).tx.session;
      Rel(p, a) in s.tables && s.Stored(Rel(p, a)) == RowsFound(target, p, a)
  {
    var t := SessionConfig.Configured(target.db, p.schema, p.owner, Begin(target.base)).0;
    assert GoodHeader(p) && Obliging(target.db) && Rel(p, a) in target.base.tables;
    hide IsIdentifier, Shaped, Cooperative, Obliging, RowsOf;
    ConfigureAccepts(target.db, p.schema, p.owner, Begin(target.base));
    SessionConfig.ConfiguredOverlays(target.db, p.schema, p.owner, Begin(target.base));
    hide SessionConfig.Configured, AllAccepted;
    FixturesArePlantable(target, p, t);
    SeedStores(target.db, p.schema, p.fixtures, Seeder.Seeded(t, map[], None), a.table);
    hide Seeder.SeedFrom;
  }

  lemma IsPlaced(target: Target, p: Profile, i: nat, s: Session)
    requires Shaped(p) && Cooperative(target, p) && i < |p.attacks|
    requires s.tables == Seeding(target, p).tx.session.tables && s.settings == StartSettings(p, target.base.settings, i)
    ensures Placed(target, p, i, s)
  {
    hide Shaped, Cooperative, Seeding, RowsFound, StartSettings;
    SeedingPlaces(target, p, p.attacks[i]);
  }

  lemma AimIsSeeded(target: Target, p: Profile, a: Attack)
    requires SessionConfig.Configured(target.db, p.schema, p.owner, Begin(target.base)).1 == None
      && Seeding(target, p).failure == None
    ensures RowFor(Seeding(target, p).owners, a.table) == Aim(p, a)
  {
    hide SessionConfig.Configured, Seeding, Seeder.OwnersAfter;
    SeedingIsActive(target, p);
  }

  lemma EffectFree(target: Target, p: Profile, a: Attack)
    requires Cooperative(target, p) && a in p.attacks
    ensures !target.db.effectful(Rel(p, a)) && Obliging(target.db)
  {
    hide Obliging, Preflight.Clear, Truthful;
    GateExcludesEffects(target, p);
  }

  /** What the profile and the policies say about attack i of a secure target. */
  lemma SecureEntry(target: Target, p: Profile, i: nat)
    requires WellFormed(p) && AllAttackable(p) && InsertLast(p) && Secure(target, p) && i < |p.attacks|
    ensures var a := p.attacks[i];
      && a in p.attacks && GoodHeader(p) && Shaped(p) && Attackable(a) && SecureAt(target, p, i)
      && InsertCount(a.operations) <= (if i == |p.attacks| - 1 then 1 else 0)
      && forall op :: op in a.operations ==> op.Valid()
  {
    hide GoodHeader, GoodFixture, GoodEntry, GoodKeys, HasAttack, HasFixture, Attackable, SecureAt, InsertCount;
  }

  lemma AttackPasses(target: Target, p: Profile, i: nat, m: Matrix)
    requires WellFormed(p) && Cooperative(target, p) && AllAttackable(p) && InsertLast(p) && i < |p.attacks|
    requires Secure(target, p) && Placed(target, p, i, m.tx.session) && Good(m) && m.tx.status.Active?
    ensures var m' := MatrixStep(target.db, p, Seeding(target, p).owners, p.attacks[i], m);
      && Good(m') && m'.tx.session == AdversarySession(p, m.tx.session)
      && (i < |p.attacks| - 1 ==> m'.tx.status.Active?)
  {
    var a := p.attacks[i];
    hide *;
    SecureEntry(target, p, i);
    EffectFree(target, p, a);
    BuildsIs(p, a);
    SecureIs(target, p, i, m.tx.session);
    SecureIsDeniable(target, p, a, m.tx.session);
    SeedingPlaces(target, p, a);
    AimIsSeeded(target, p, a);
    PlacedTable(target, p, i, m.tx.session);
    StepDenied(target.db, p, Seeding(target, p).owners, a, m);
  }

  lemma PlacedTable(target: Target, p: Profile, i: nat, s: Session)
    requires i < |p.attacks| && Placed(target, p, i, s)
    ensures Rel(p, p.attacks[i]) in s.tables
  {
  }

  lemma OnwardSession(p: Profile, base: map<string, string>, i: nat, s: Session)
    requires s.settings == StartSettings(p, base, i)
    ensures AdversarySession(p, s).tables == s.tables
      && AdversarySession(p, s).settings == StartSettings(p, base, i + 1)
  {
    SettingsAreStable(p, base, i);
  }

  lemma ShapedOf(p: Profile)
    requires WellFormed(p)
    ensures Shaped(p)
  {
  }

  lemma {:induction false} MatrixPasses(target: Target, p: Profile, n: nat)
    requires WellFormed(p) && Cooperative(target, p) && AllAttackable(p) && InsertLast(p) && Secure(target, p)
      && n <= |p.attacks|
    requires Seeding(target, p).tx.status.Active?
    requires Seeding(target, p).tx.session.settings == target.base.settings + p.owner.settings
    ensures var m := MatrixUpTo(target.db, p, Seeding(target, p).owners, Seeding(target, p).tx, n);
      && Good(m) && (n < |p.attacks| ==> m.tx.status.Active?)
      && m.tx.session.tables == Seeding(target, p).tx.session.tables
      && m.tx.session.settings == StartSettings(p, target.base.settings, n)
  {
    hide *;
    if n == 0 {
      GoodStart(target.db, p, Seeding(target, p).owners, Seeding(target, p).tx, target.base.settings);
    } else {
      ShapedOf(p);
      MatrixPasses(target, p, n - 1);
      var m := MatrixUpTo(target.db, p, Seeding(target, p).owners, Seeding(target, p).tx, n - 1);
      IsPlaced(target, p, n - 1, m.tx.session);
      AttackPasses(target, p, n - 1, m);
      OnwardSession(p, target.base.settings, n - 1, m.tx.session);
      NextStep(target.db, p, Seeding(target, p).owners, Seeding(target, p).tx, n - 1);
    }
  }

  lemma GoodStart(db: Database, p: Profile, owners: Seeder.OwnerRows, start: Tx, base: map<string, string>)
    requires start.session.settings == base + p.owner.settings
    ensures Good(MatrixUpTo(db, p, owners, start, 0)) && MatrixUpTo(db, p, owners, start, 0).tx == start
    ensures start.session.settings == StartSettings(p, base, 0)
  {
  }

  // ---------- a run that passes is on a secure target ----------

  /** Denied evidence belongs to a statement that could be built. */
  lemma {:induction false} DeniedBuilds(db: Database, schema: string, a: Attack, row: Row, ops: seq<Operation>, t: Tx)
    requires DeniedAll(Attacks.RunFrom(db, schema, a, row, ops, t).1)
    ensures Update in ops ==> SqlSafe.UpdateStatement(schema, a.table, a.primaryKey, row, a.mutation).Ok?
    decreases ops
  {
    hide SqlSafe.UpdateStatement, Send, SqlSafe.SelectStatement, SqlSafe.DeleteStatement;
    if ops != [] {
      assert ops == [ops[0]] + ops[1..];
      if ops[0] == Insert {
        DeniedBuilds(db, schema, a, row, ops[1..], t);
      } else {
        var (t1, e) := Attacks.Attempt(db, schema, a, row, ops[0], t);
        DeniedCons(e, Attacks.RunFrom(db, schema, a, row, ops[1..], t1).1);
        DeniedBuilds(db, schema, a, row, ops[1..], t1);
      }
    }
  }

  lemma DeniedInsertWasActive(db: Database, schema: string, a: Attack, t: Tx)
    requires Obliging(db) && !t.status.Closed? && Attacks.InsertAttempt(db, schema, a, t).1.denied
    ensures t.status.Active? && InsertBuilds(schema, a)
  {
    hide SqlSafe.InsertStatement, Parse, RunActive, RunAborted;
    var built := SqlSafe.InsertStatement(schema, a.table, a.insert, SortedElements(a.insert.Keys));
    if built.Ok? && t.status.Aborted? {
      InsertStatementRuns(db, t, schema, a.table, a.insert);
      hide SortedElements;
    }
  }

  /** Denied inserts: at most one, which the policy forbids, and which ends the transaction. */
  lemma {:induction false} DeniedInsertsAreOne(db: Database, schema: string, a: Attack, ops: seq<Operation>, t: Tx)
    requires Obliging(db) && !t.status.Closed? && Relation(schema, a.table) in t.session.tables
    requires DeniedAll(InsertsFrom(db, schema, a, ops, t).1)
    ensures InsertCount(ops) <= 1
    ensures Insert in ops ==>
      t.status.Active? && InsertBuilds(schema, a)
        && !db.insertCheck(t.session.Ctx(), Relation(schema, a.table), a.insert)
    ensures Insert in ops ==> InsertsFrom(db, schema, a, ops, t).0.status.Aborted?
    decreases ops
  {
    hide Obliging, InsertBuilds, Attacks.InsertAttempt;
    if ops != [] {
      assert ops == [ops[0]] + ops[1..];
      if ops[0] != Insert {
        DeniedInsertsAreOne(db, schema, a, ops[1..], t);
      } else {
        var (t1, e) := Attacks.InsertAttempt(db, schema, a, t);
        DeniedCons(e, InsertsFrom(db, schema, a, ops[1..], t1).1);
        DeniedInsertWasActive(db, schema, a, t);
        InsertRefused(db, schema, a, t);
        DeniedInsertsAreOne(db, schema, a, ops[1..], t1);
        CountsInserts(ops[1..]);
        NoInserts(db, schema, a, ops[1..], t1);
      }
    }
  }

  lemma AttackedShape(db: Database, p: Profile, a: Attack, row: Row, m: Matrix, s: Session)
    requires Obliging(db) && !db.effectful(Rel(p, a)) && Rel(p, a) in s.tables
    requires m.tx.status.Active? && m.tx.session == OwnerSession(p, s) && Good(Attacked(db, p, a, row, m))
    ensures Update in a.operations ==> SqlSafe.UpdateStatement(p.schema, a.table, a.primaryKey, row, a.mutation).Ok?
    ensures InsertCount(a.operations) <= 1
    ensures Insert in a.operations ==>
      && InsertBuilds(p.schema, a) && !db.insertCheck(AdversarySession(p, s).Ctx(), Rel(p, a), a.insert)
      && Attacked(db, p, a, row, m).tx.status.Aborted?
  {
    hide Obliging, InsertBuilds, SqlSafe.UpdateStatement;
    SessionConfig.ConfiguredOverlays(db, p.schema, p.adversary, m.tx);
    hide SessionConfig.Configured, AllAccepted, IsIdentifier;
    var t := SessionConfig.Configured(db, p.schema, p.adversary, m.tx).0;
    var (t1, e1) := Attacks.RunFrom(db, p.schema, a, row, a.operations, t);
    var (t2, e2) := InsertsFrom(db, p.schema, a, a.operations, t1);
    DeniedConcat(m.evidence + e1, e2);
    DeniedConcat(m.evidence, e1);
    hide DeniedAll;
    DeniedBuilds(db, p.schema, a, row, a.operations, t);
    DeniedRun(db, p.schema, a, row, a.operations, t);
    DeniedInsertsAreOne(db, p.schema, a, a.operations, t1);
  }

  /** What a passing attack shows of its profile entry and of the policies. */
  lemma StepShape(db: Database, p: Profile, owners: Seeder.OwnerRows, a: Attack, m: Matrix)
    requires Obliging(db) && !db.effectful(Rel(p, a)) && Rel(p, a) in m.tx.session.tables
    requires m.failure == None && Good(MatrixStep(db, p, owners, a, m))
    ensures Update in a.operations ==>
      SqlSafe.UpdateStatement(p.schema, a.table, a.primaryKey, RowFor(owners, a.table), a.mutation).Ok?
    ensures InsertCount(a.operations) <= 1
    ensures Insert in a.operations ==>
      && InsertBuilds(p.schema, a) && !db.insertCheck(AdversarySession(p, m.tx.session).Ctx(), Rel(p, a), a.insert)
      && MatrixStep(db, p, owners, a, m).tx.status.Aborted?
  {
    hide Obliging, InsertBuilds, SqlSafe.UpdateStatement;
    var row := RowFor(owners, a.table);
    SessionConfig.ConfiguredOverlays(db, p.schema, p.owner, m.tx);
    var t := SessionConfig.Configured(db, p.schema, p.owner, m.tx).0;
    Control.VerifiedObserves(db, p.schema, a, row, t);
    hide SessionConfig.Configured, Control.Verified, AllAccepted, IsIdentifier, Attacked;
    AttackedShape(db, p, a, row, m.(tx := Control.Verified(db, p.schema, a, row, t).0), m.tx.session);
  }

  /** Attack i of a passing run: its entry can be built, its inserts are where they must be, and the policies isolate.
      */
  lemma PassShows(target: Target, p: Profile, i: nat)
    requires WellFormed(p) && Cooperative(target, p) && Reports(target, p, Pass) && i < |p.attacks|
    ensures Builds(p, p.attacks[i]) && SecureAt(target, p, i)
    ensures InsertCount(p.attacks[i].operations) <= if i == |p.attacks| - 1 then 1 else 0
  {
    var a := p.attacks[i];
    assert a in p.attacks;
    PassIsGood(target, p);
    assert !target.db.effectful(Rel(p, a)) && Obliging(target.db);
    Accepted.KeyStatementsBuild(p, a);
    hide *;
    var owners, start := Seeding(target, p).owners, Seeding(target, p).tx;
    GoodIsFinal(target, p);
    CleanAttackAt(target.db, p, owners, start, target.base.settings, i);
    var m := MatrixUpTo(target.db, p, owners, start, i);
    IsPlaced(target, p, i, m.tx.session);
    PlacedTable(target, p, i, m.tx.session);
    SeedingPlaces(target, p, a);
    AimIsSeeded(target, p, a);
    NextStep(target.db, p, owners, start, i);
    StepShape(target.db, p, owners, a, m);
    CleanIsSecure(target.db, p, a, m.tx, MatrixUpTo(target.db, p, owners, start, i + 1).tx, target);
    SecureIs(target, p, i, m.tx.session);
    BuildsFrom(p, a);
    CountsInserts(a.operations);
    if i < |p.attacks| - 1 {
      CleanAttackAt(target.db, p, owners, start, target.base.settings, i + 1);
    }
  }

  lemma GoodIsFinal(target: Target, p: Profile)
    requires Good(Final(target, p))
    ensures Good(MatrixUpTo(target.db, p, Seeding(target, p).owners, Seeding(target, p).tx, |p.attacks|))
  {
  }

  lemma CleanIsSecure(db: Database, p: Profile, a: Attack, t: Tx, t': Tx, target: Target)
    requires target.db == db && CleanAttack(db, p, a, Aim(p, a), t, t')
    requires Insert in a.operations ==> !db.insertCheck(AdversarySession(p, t.session).Ctx(), Rel(p, a), a.insert)
    ensures SecureFor(target, p, a, t.session)
  {
    hide Aim, OwnerSession, AdversarySession, SqlSafe.KeyMatches;
  }

  lemma BuildsFrom(p: Profile, a: Attack)
    requires SqlSafe.SelectStatement(p.schema, a.table, a.primaryKey, Aim(p, a)).Ok?
    requires Update in a.operations ==>
      SqlSafe.UpdateStatement(p.schema, a.table, a.primaryKey, Aim(p, a), a.mutation).Ok?
    requires Insert in a.operations ==> InsertBuilds(p.schema, a)
    ensures Builds(p, a)
  {
  }

  // ---------- the verdict ----------

  lemma {:induction false} RequiredFrom(attacks: seq<Attack>, op: Operation) returns (a: Attack)
    requires op in Required(attacks)
    ensures a in attacks && op in a.operations
    decreases attacks
  {
    var last := |attacks| - 1;
    if op in attacks[last].operations {
      a := attacks[last];
    } else {
      a := RequiredFrom(attacks[..last], op);
    }
  }

  lemma TagIsCovered(attacks: seq<Attack>, evidence: seq<Evidence>, a: Attack, op: Operation)
    requires Tags(evidence) == AllTags(attacks) && a in attacks && op in a.operations
    ensures Evaluate.Covers(evidence, op)
  {
    AllTagsFind(attacks, a, op);
    hide AllTags;
    var i :| 0 <= i < |Tags(evidence)| && Tags(evidence)[i] == (a.table, op);
  }

  /** A good matrix is a pass: something was attempted, everything required was, and everything was denied. */
  lemma GoodIsPass(p: Profile, evidence: seq<Evidence>)
    requires WellFormed(p) && DeniedAll(evidence) && Tags(evidence) == AllTags(p.attacks)
    ensures Verdict(p, [], true, evidence) == Pass
  {
    assert p.attacks[0] in p.attacks && GoodAttack(p.attacks[0]);
    hide WellFormed, Tags, AllTags, Required;
    TagIsCovered(p.attacks, evidence, p.attacks[0], p.attacks[0].operations[0]);
    forall i | 0 <= i < |Required(p.attacks)| ensures Evaluate.Covers(evidence, Required(p.attacks)[i]) {
      var a := RequiredFrom(p.attacks, Required(p.attacks)[i]);
      TagIsCovered(p.attacks, evidence, a, Required(p.attacks)[i]);
    }
    assert forall i :: 0 <= i < |evidence| ==> evidence[i] in evidence;
  }

  lemma GoodIsReported(target: Target, p: Profile)
    requires WellFormed(p) && Cooperative(target, p) && Good(Final(target, p))
    requires SessionConfig.Configured(target.db, p.schema, p.owner, Begin(target.base)).1 == None
      && Seeding(target, p).failure == None
    ensures Reports(target, p, Pass)
  {
    assert target.opens && target.login.Some? && target.begins
      && Preflight.Clear(target.catalog, p, GateConfig(target.login.value));
    hide *;
    PassTags(target, p);
    GoodIsPass(p, Final(target, p).evidence);
    GoodFinal(target, p);
    Completed(target, p);
  }

  lemma GoodFinal(target: Target, p: Profile)
    requires Good(Final(target, p))
    ensures Final(target, p).failure == None && Final(target, p).controlOK
  {
    hide Final;
  }

  /** A run that gets through its matrix reports the verdict over it. */
  lemma Completed(target: Target, p: Profile)
    requires target.opens && target.login.Some? && target.begins
      && Preflight.Clear(target.catalog, p, GateConfig(target.login.value))
    requires SessionConfig.Configured(target.db, p.schema, p.owner, Begin(target.base)).1 == None
    requires Seeding(target, p).failure == None && Final(target, p).failure == None
    ensures Reports(target, p, Verdict(p, [], Final(target, p).controlOK, Final(target, p).evidence))
  {
    var config := GateConfig(target.login.value);
    Preflight.NothingFoundIffClear(target.catalog, p, config);
    Preflight.GateIsExact(target.catalog, p, config);
    CompletedInside(target, p, []);
    hide Verdict, Preflight.AllFindings, Preflight.Severest, Preflight.Clear, InTransaction, Ended, Seeding, Final;
    assert Executed(target, p) == Ended(target.db, InTransaction(target, p, []));
    hide Executed;
    EndedReports(target.db, InTransaction(target, p, []));
  }

  lemma EndedReports(db: Database, r: Run)
    ensures Ended(db, r).report == r.report
  {
  }

  lemma CompletedInside(target: Target, p: Profile, findings: seq<Finding>)
    requires SessionConfig.Configured(target.db, p.schema, p.owner, Begin(target.base)).1 == None
    requires Seeding(target, p).failure == None && Final(target, p).failure == None
    ensures InTransaction(target, p, findings).report == Some(ReportOf(
      target, Verdict(p, findings, Final(target, p).controlOK,
        Final(target, p).evidence), "attack matrix completed", findings, Final(target, p).evidence))
  {
    hide Verdict, SessionConfig.Configured, MatrixUpTo, Seeder.SeedFrom;
  }

  lemma SecurePasses(target: Target, p: Profile)
    requires WellFormed(p) && Cooperative(target, p) && AllAttackable(p) && InsertLast(p) && Secure(target, p)
    ensures Reports(target, p, Pass)
  {
    assert p.attacks[0] in p.attacks;
    hide *;
    SeedingPlaces(target, p, p.attacks[0]);
    SeedingIsActive(target, p);
    MatrixPasses(target, p, |p.attacks|);
    FinalMatrix(target, p);
    GoodIsReported(target, p);
  }

  lemma PassIsSecure(target: Target, p: Profile)
    requires WellFormed(p) && Cooperative(target, p) && Reports(target, p, Pass)
    ensures AllAttackable(p) && InsertLast(p) && Secure(target, p)
  {
    hide WellFormed, Shaped, Cooperative, Reports, Builds, SecureAt, Attackable, InsertCount;
    ShapedOf(p);
    forall i | 0 <= i < |p.attacks|
      ensures SecureAt(target, p, i) && Attackable(p.attacks[i])
      ensures InsertCount(p.attacks[i].operations) <= if i == |p.attacks| - 1 then 1 else 0
    {
      PassShows(target, p, i);
      BuildsIs(p, p.attacks[i]);
    }
  }

  /** For an accepted profile and a server that refuses nothing but what its policies forbid, the runner reports `pass`
      exactly when the policies isolate every attacked row, and the profile asks for no more than one insert, in its
      last attack, with updates and inserts that can be built. */
  lemma PassExactly(target: Target, p: Profile)
    requires WellFormed(p) && Cooperative(target, p)
    ensures Reports(target, p, Pass) <==> AllAttackable(p) && InsertLast(p) && Secure(target, p)
  {
    hide *;
    if Reports(target, p, Pass) {
      PassIsSecure(target, p);
    }
    if AllAttackable(p) && InsertLast(p) && Secure(target, p) {
      SecurePasses(target, p);
    }
  }

  // ---------- an example ----------

  const EXAMPLE_OPERATIONS := [Select, Update, Delete, Insert]

  /** The row belongs to the role of the session. */
  predicate Owned(c: Context, row: Row) {
    "w" in row && row["w"] == Datum("string", c.role)
  }

  /** Everybody may write rows of their own only, and reach those only, unless the policies are left open. */
  ghost predicate ExamplePolicies(db: Database, open: bool) {
    && Obliging(db) && (forall rel :: !db.effectful(rel))
    && (forall c, rel, row :: db.visible(c, rel, row) <==> open || Owned(c, row))
    && (forall c, rel, row :: db.updatable(c, rel, row) <==> open || Owned(c, row))
    && (forall c, rel, row :: db.deletable(c, rel, row) <==> open || Owned(c, row))
    && (forall c, rel, row :: db.insertCheck(c, rel, row) <==> Owned(c, row))
    && forall c, rel, row :: db.updateCheck(c, rel, row) <==> Owned(c, row)
  }

  /** One fixture that belongs to `o`, and one attack by `v` with the given operations: the update makes the row belong
      to `taker`, the insert adds a row that belongs to `o`. */
  predicate ExampleProfile(p: Profile, row: Row, ops: seq<Operation>, taker: string) {
    && row == map["k" := Datum("string", "1"), "w" := Datum("string", "o")]
    && p == Profile(1, "s", true, Identity("o", map[]), Identity("v", map[]), [Fixture("t", row, [])],
      [Attack("t", ["k"], ["w"], ops, map["w" := Datum("string", taker)],
        map["k" := Datum("string", "2"), "w" := Datum("string", "o")])])
  }

  lemma ExampleTarget(ops: seq<Operation>, taker: string, open: bool) returns (target: Target, p: Profile, row: Row)
    requires ops != []
    ensures ExampleProfile(p, row, ops, taker) && ExamplePolicies(target.db, open)
    ensures Shaped(p) && Cooperative(target, p) && AllAttackable(p)
    ensures target.base.tables == map[Relation("s", "t") := []]
  {
    row := map["k" := Datum("string", "1"), "w" := Datum("string", "o")];
    p := Profile(1, "s", true, Identity("o", map[]), Identity("v", map[]), [Fixture("t", row, [])],
      [Attack("t", ["k"], ["w"], ops, map["w" := Datum("string", taker)],
        map["k" := Datum("string", "2"), "w" := Datum("string", "o")])]);
    var reach := (c: Context, rel: Relation, r: Row) => open || Owned(c, r);
    var check := (c: Context, rel: Relation, r: Row) => Owned(c, r);
    var db := Database(reach, reach, reach, check, check, (n, s, q, args) => None, (n, s, text, args) => Granted(s, 0),
      rel => false, (rel, tables) => tables, n => false);
    var catalog := Preflight.Catalog(
      role => Some(Preflight.RoleInfo(false, false)), role => ["o", "v"],
      (schema, table) => Some(Preflight.TableInfo("x", true, [], [])), (role, schema, table, privilege) => Some(true));
    target := Target(true, Some("l"), catalog, true, Session(map[Relation("s", "t") := []], "l", map[], ""), db,
      Server("", ""));
    assert ExamplePolicies(db, open) by {
      hide Owned;
    }
    ExampleIsShaped(p, row, ops, taker);
    ExampleIsClear(catalog, p, row, ops, taker);
    ExampleCooperates(target, p, row, ops, taker, open);
    hide Shaped, Cooperative, ExamplePolicies;
  }

  lemma ExampleSupports(p: Profile, row: Row, ops: seq<Operation>, taker: string)
    requires ExampleProfile(p, row, ops, taker)
    ensures AllSupported(p) <==> forall op :: op in ops ==> op.Valid()
    ensures |p.attacks| == 1 && p.attacks[0].operations == ops && forall a :: a in p.attacks ==> a == p.attacks[0]
  {
    assert p.attacks[0] in p.attacks;
  }

  lemma SingleLetter(name: string)
    requires |name| == 1 && 'a' <= name[0] <= 'z'
    ensures IsIdentifier(name)
  {
    assert name[1..] == "";
    assert ByteLength(name) == 1;
  }

  lemma ExampleIsShaped(p: Profile, row: Row, ops: seq<Operation>, taker: string)
    requires ExampleProfile(p, row, ops, taker) && ops != []
    ensures Shaped(p) && AllAttackable(p)
  {
    SingleLetter("s");
    SingleLetter("o");
    SingleLetter("v");
    SingleLetter("t");
    SingleLetter("k");
    SingleLetter("w");
    hide IsIdentifier, IsSettingName, Part;
    var a := p.attacks[0];
    assert a.table == p.fixtures[0].table == "t";
    assert "k" in row && GoodFixture(p.fixtures[0]) && GoodEntry(a);
    assert KeyOf(row, ["k"]).Some?;
    assert GoodKeys(p.fixtures, a);
    hide GoodKeys, GoodFixture, GoodEntry, KeyOf;
    ExampleAttackable(a);
  }

  lemma ExampleAttackable(a: Attack)
    requires IsIdentifier("k") && IsIdentifier("w") && a.mutation.Keys == {"w"} && a.insert.Keys == {"k", "w"}
    ensures Attackable(a)
  {
    hide IsIdentifier;
    assert |a.mutation| == |a.mutation.Keys|;
    assert "k" in a.insert;
  }

  lemma ExampleIsClear(c: Preflight.Catalog, p: Profile, row: Row, ops: seq<Operation>, taker: string)
    requires ExampleProfile(p, row, ops, taker)
    requires c.role("l") == Some(Preflight.RoleInfo(false, false)) && c.memberships("l") == ["o", "v"]
    requires c.table("s", "t") == Some(Preflight.TableInfo("x", true, [], []))
    requires forall role, privilege :: c.hasPrivilege(role, "s", "t", privilege) == Some(true)
    ensures Preflight.Clear(c, p, GateConfig("l"))
  {
    assert "v"[0] != "o"[0] && "x"[0] != "o"[0] && "x"[0] != "v"[0];
    hide Preflight.Requirements;
    assert Preflight.ClearAttack(c, p, GateConfig("l"), p.attacks[0]);
  }

  lemma ExampleCooperates(target: Target, p: Profile, row: Row, ops: seq<Operation>, taker: string, open: bool)
    requires ExampleProfile(p, row, ops, taker) && target.base.tables == map[Relation("s", "t") := []]
    requires target.opens && target.login == Some("l") && target.begins
      && Preflight.Clear(target.catalog, p, GateConfig("l"))
    requires ExamplePolicies(target.db, open)
    ensures Cooperative(target, p)
  {
    assert Owned(SeedContext(target, p), row);
    hide Preflight.Clear, Obliging, Owned;
    assert forall a :: a in p.attacks ==> Rel(p, a) == Relation("s", "t");
  }

  /** In the example a context reaches exactly the fixture, if the policies let it. */
  lemma ExampleReached(target: Target, p: Profile, row: Row, ops: seq<Operation>, taker: string, op: Operation,
          c: Context)
    requires ExampleProfile(p, row, ops, taker) && target.base.tables == map[Relation("s", "t") := []]
    ensures RowsFound(target, p, p.attacks[0]) == [row]
    ensures Reachable(target, p, p.attacks[0], op, c) <==> Can(target.db, op, c, Relation("s", "t"), row)
    ensures AdversaryContext(target, p).role == "v" && OwnerContext(target, p, 0).role == "o"
  {
    var a := p.attacks[0];
    ExampleRows(p.fixtures, row);
    assert Rel(p, a) == Relation("s", "t");
    assert RowsFound(target, p, a) == [row] && Aim(p, a) == row;
    hide RowsFound, Aim, Can;
    assert SqlSafe.KeyMatches(a.primaryKey, row, row);
    hide SqlSafe.KeyMatches;
    assert row in RowsFound(target, p, a);
  }

  lemma ExampleRows(fixtures: seq<Fixture>, row: Row)
    requires fixtures == [Fixture("t", row, [])]
    ensures RowsOf(fixtures, "t") == [row] && Seeder.OwnersAfter(fixtures, map[]) == map["t" := row]
  {
    assert fixtures[1..] == [];
    assert RowsOf([], "t") == [];
  }

  /** Whose the rows of the example are, and become. */
  lemma ExampleOwned(p: Profile, row: Row, ops: seq<Operation>, taker: string, c: Context)
    requires ExampleProfile(p, row, ops, taker)
    ensures Owned(c, row) <==> c.role == "o"
    ensures Owned(c, p.attacks[0].insert) <==> c.role == "o"
    ensures Owned(c, row + p.attacks[0].mutation) <==> c.role == taker
  {
  }

  lemma OneInsertIn()
    ensures InsertCount(EXAMPLE_OPERATIONS) == 1
    ensures forall op :: op in EXAMPLE_OPERATIONS ==> op.Valid()
  {
    assert EXAMPLE_OPERATIONS[1..] == [Update, Delete, Insert];
    assert [Update, Delete, Insert][1..] == [Delete, Insert] && [Delete, Insert][1..] == [Insert];
    assert [Insert][1..] == [];
    assert InsertCount([Insert]) == 1 && InsertCount([Delete, Insert]) == 1;
  }

  lemma ExampleIsSecure(target: Target, p: Profile, row: Row, ops: seq<Operation>, taker: string)
    requires ExampleProfile(p, row, ops, taker) && target.base.tables == map[Relation("s", "t") := []]
    requires ExamplePolicies(target.db, false)
    ensures Secure(target, p)
  {
    var adversary := AdversaryContext(target, p);
    ExampleOwned(p, row, ops, taker, adversary);
    ExampleOwned(p, row, ops, taker, OwnerContext(target, p, 0));
    ExampleReached(target, p, row, ops, taker, Select, OwnerContext(target, p, 0));
    assert "v"[0] != "o"[0];
    forall op ensures !Reachable(target, p, p.attacks[0], op, adversary) {
      ExampleReached(target, p, row, ops, taker, op, adversary);
    }
    hide Reachable, OwnerContext, AdversaryContext, Owned, Obliging;
    assert SecureAt(target, p, 0);
  }

  /** There are targets that pass: the example, attacked by all four operations. */
  lemma SomeTargetPasses() returns (target: Target, p: Profile)
    ensures WellFormed(p) && Cooperative(target, p) && Reports(target, p, Pass)
    ensures p.attacks != [] && p.attacks[0].operations == EXAMPLE_OPERATIONS
  {
    hide Shaped, Cooperative, Secure, Reports, ExampleProfile, ExamplePolicies, AllSupported, AllAttackable;
    var row;
    OneInsertIn();
    target, p, row := ExampleTarget(EXAMPLE_OPERATIONS, "v", false);
    ExampleSupports(p, row, EXAMPLE_OPERATIONS, "v");
    ExampleIsSecure(target, p, row, EXAMPLE_OPERATIONS, "v");
    assert InsertLast(p) by {
      hide InsertCount;
    }
    hide *;
    PassExactly(target, p);
  }

  /** Perfect policies are not enough: with inserts under two attacks, no such run can pass, since the first denied
      insert aborts the one transaction and no savepoint brings it back. */
  lemma TwoInsertsNeverPass(target: Target, p: Profile, i: nat, j: nat)
    requires WellFormed(p) && Cooperative(target, p)
    requires i < j < |p.attacks| && Insert in p.attacks[i].operations && Insert in p.attacks[j].operations
    ensures !Reports(target, p, Pass)
  {
    if Reports(target, p, Pass) {
      PassShows(target, p, i);
      hide *;
      CountsInserts(p.attacks[i].operations);
    }
  }
}
